/**
 * Installing a target together with its personal owners, detaching a target
 * from shared directories, and whole runs (ls/core/apply.py,
 * adapter_coalescing.py, repository_overlap.py, detach.py).
 */
module PersonalInstalls {
  import opened Wrappers
  import opened PackageRegistries
  import opened PersonalAdapters
  import opened RepositoryAdapters

  // ----- the writes of one installation -----

  predicate PersonalAt(rows: seq<Row>, p: Path) {
    exists i :: 0 <= i < |rows| && rows[i].PersonalRow? && rows[i].path == p
  }

  predicate Claimed(rows: seq<Row>, p: Path) { exists i :: 0 <= i < |rows| && Claims(rows[i], p) }

  predicate SomebodyAt(owners: map<OwnerKey, OwnerRecord>, p: Path) { exists o :: o in owners && p in owners[o].paths }

  /** At a path at most one repository row and one personal row, in one mode; a personal row has owners. */
  predicate WellPaired(rows: seq<Row>) {
    && (forall i :: 0 <= i < |rows| && rows[i].PersonalRow? ==> rows[i].owners != {})
    && (forall i, j :: 0 <= i < j < |rows| && rows[i].path == rows[j].path ==>
          rows[i].RepoRow? != rows[j].RepoRow? && rows[i].mode == rows[j].mode)
  }

  /** What every recorded owner exposes at a path. */
  function OwnersAt(owners: map<OwnerKey, OwnerRecord>, p: Path): map<OwnerKey, set<Name>> {
    map o | o in owners && p in owners[o].paths :: owners[o].packages
  }

  /** The owners a write speaks for: the personal row's, or, for a repository row, everybody recorded at the path. */
  function SpeaksFor(owners: map<OwnerKey, OwnerRecord>, row: Row): Option<map<OwnerKey, set<Name>>> {
    if row.PersonalRow? then PersonalSelections(row)
    else if OwnersFit(owners, row.path, row.mode) then Some(OwnersAt(owners, row.path))
    else None
  }

  /** A repository row is written through the shared writer only where recorded owners share the
      path; beside a personal row it is written together with that one. */
  predicate Shares(owners: map<OwnerKey, OwnerRecord>, rows: seq<Row>, row: Row) {
    row.PersonalRow? || (!PersonalAt(rows, row.path) && SomebodyAt(owners, row.path))
  }

  /** The target whose earlier rows do not count: the installing one, where it brings a new row. */
  function Replaced(t: TargetKey, rows: seq<Row>, p: Path): Option<TargetKey> {
    if Claimed(rows, p) then Some(t) else None
  }

  function RowNames(r: Registry, t: TargetKey, rows: seq<Row>, row: Row): Option<set<Name>> {
    match SpeaksFor(r.owners, row)
    case None => None
    case Some(selected) =>
      Selection(r, row.path, row.mode, selected, Replaced(t, rows, row.path), RowsUnion(rows, row.path))
  }

  /** A repository row whose directory no personal owner uses goes through the repository's own writer. */
  predicate Own(owners: map<OwnerKey, OwnerRecord>, rows: seq<Row>, row: Row) {
    row.RepoRow? && !PersonalAt(rows, row.path) && !SomebodyAt(owners, row.path)
  }

  /** One row's directory can be written over the registry as it stands. */
  predicate RowReady(r: Registry, a: Adapter, t: TargetKey, rows: seq<Row>, row: Row, library: set<Name>) {
    && (Shares(r.owners, rows, row) ==>
          match RowNames(r, t, rows, row)
          case None => false
          case Some(names) => names <= library && !Collides(a, names))
    && (Own(r.owners, rows, row) ==> row.packages <= library && !Taken(a, row.packages))
  }

  predicate AttachReady(w: World, t: TargetKey, rows: seq<Row>, available: set<Name>, library: set<Name>) {
    && WellPaired(rows) && Gather(rows, available).Some?
    && forall i {:trigger rows[i]} :: 0 <= i < |rows| ==>
         RowReady(w.registry, AdapterAt(w, rows[i].path), t, rows, rows[i], library)
  }

  /** The registry saved at the end. */
  function Saved(r: Registry, t: TargetKey, current: set<PackageId>, rows: seq<Row>, available: set<Name>): Registry {
    Apply(r, Upsert(t, current, rows, available))
  }

  /** A row's directory after its write. */
  ghost predicate RowWritten(w: World, t: TargetKey, rows: seq<Row>, row: Row, later: World) {
    && (Shares(w.registry.owners, rows, row) && RowNames(w.registry, t, rows, row).Some? ==>
          AdapterAt(later, row.path)
          == Written(AdapterAt(w, row.path), RowNames(w.registry, t, rows, row).value, row.mode))
    && (Own(w.registry.owners, rows, row) ==>
          AdapterAt(later, row.path) == Scoped(AdapterAt(w, row.path), row.packages, row.mode))
  }

  /** `later` follows from `w` by writing every row's directory and saving the registry. */
  ghost predicate Attached(w: World, t: TargetKey, current: set<PackageId>, rows: seq<Row>, available: set<Name>,
                           later: World)
  {
    && later.registry == Saved(w.registry, t, current, rows, available)
    && (forall i {:trigger rows[i]} :: 0 <= i < |rows| ==> RowWritten(w, t, rows, rows[i], later))
    && (forall p {:trigger AdapterAt(later, p)} :: !PersonalAt(rows, p) && !Claimed(rows, p) ==>
          AdapterAt(later, p) == AdapterAt(w, p))
  }

  // ----- what an installation gives up -----

  /** A path an owner had before and is not recorded at any more. */
  predicate Dropped(owners: map<OwnerKey, OwnerRecord>, selected: map<OwnerKey, OwnerRecord>, o: OwnerKey, p: Path) {
    o in selected && At(owners, o, p) && p !in selected[o].paths
  }

  function SelectedBy(rows: seq<Row>, available: set<Name>): map<OwnerKey, OwnerRecord> {
    match Gather(rows, available)
    case None => map[]
    case Some(selected) => selected
  }

  /** What a target exposed at a path so far. */
  function Exposed(r: Registry, t: TargetKey, p: Path): set<Name> {
    if t in r.targets then RowsUnion(r.targets[t].rows, p) else {}
  }

  ghost predicate DroppedName(r: Registry, selected: map<OwnerKey, OwnerRecord>, p: Path, n: Name) {
    exists o :: Dropped(r.owners, selected, o, p) && n in r.owners[o].packages
  }

  /** Somebody stops exposing the package at the path: an owner recorded elsewhere now, or the target without a
      row there. */
  ghost predicate GivenUp(r: Registry, t: TargetKey, rows: seq<Row>, available: set<Name>, p: Path, n: Name) {
    DroppedName(r, SelectedBy(rows, available), p, n) || (!Claimed(rows, p) && n in Exposed(r, t, p))
  }

  /** What is given up at the path is still wanted there by somebody. */
  ghost predicate CoveredAt(r: Registry, t: TargetKey, current: set<PackageId>, rows: seq<Row>,
                            available: set<Name>, p: Path)
  {
    forall n :: GivenUp(r, t, rows, available, p, n) ==> n in UnionAt(Saved(r, t, current, rows, available), p)
  }

  /** Other repositories at the path want nothing more, in the same mode. */
  ghost predicate OthersFit(r: Registry, t: TargetKey, p: Path, names: set<Name>, mode: Mode) {
    RepoUnion(Excluding(r, Some(t)), p) <= names && RepoFits(Excluding(r, Some(t)), p, mode)
  }

  /** No entry turns or stays managed under a row's marker unwanted, and where a repository
      writes alone no other one wants more. */
  ghost predicate NoStrays(w: World, t: TargetKey, rows: seq<Row>) {
    forall i {:trigger rows[i]} :: 0 <= i < |rows| ==> Strayless(w, t, rows, rows[i])
  }

  ghost predicate Strayless(w: World, t: TargetKey, rows: seq<Row>, row: Row) {
    && (Shares(w.registry.owners, rows, row) && RowNames(w.registry, t, rows, row).Some? ==>
          !Stray(AdapterAt(w, row.path), RowNames(w.registry, t, rows, row).value, row.mode))
    && (Own(w.registry.owners, rows, row) ==>
          && OthersFit(w.registry, t, row.path, row.packages, row.mode)
          && !LeftManaged(AdapterAt(w, row.path), row.packages, row.mode))
  }

  // ----- names and modes at one path, before and after -----

  lemma SavedOwners(r: Registry, t: TargetKey, current: set<PackageId>, rows: seq<Row>, available: set<Name>)
    requires Gather(rows, available).Some?
    ensures Saved(r, t, current, rows, available).owners == r.owners + SelectedBy(rows, available)
    ensures Saved(r, t, current, rows, available).targets == r.targets[t := TargetRecord(current, rows)]
  {
    hide Rereferenced, Released, Gather;
  }

  /** A target's rows joined with everybody else's. */
  lemma TargetRows(r: Registry, rest: Registry, t: TargetKey, rows: seq<Row>, p: Path)
    requires rest == Excluding(r, Some(t)) && t in r.targets && r.targets[t].rows == rows
    ensures RepoUnion(r, p) == RepoUnion(rest, p) + RowsUnion(rows, p)
    ensures forall mode :: RepoFits(r, p, mode) <==> RepoFits(rest, p, mode) && RowsFit(rows, p, mode)
  {
    hide RowsUnion, RowsFit;
    assert forall u :: u in rest.targets ==> u in r.targets && rest.targets[u] == r.targets[u];
    forall n | n in RepoUnion(r, p)
      ensures n in RepoUnion(rest, p) || n in RowsUnion(rows, p)
    {
      var u :| u in r.targets && n in RowsUnion(r.targets[u].rows, p);
      assert u != t ==> u in rest.targets;
    }
    forall mode
      ensures RepoFits(r, p, mode) <==> RepoFits(rest, p, mode) && RowsFit(rows, p, mode)
    {
      assert forall u :: u in r.targets ==> u == t || u in rest.targets;
    }
  }

  lemma SavedRepo(r: Registry, t: TargetKey, current: set<PackageId>, rows: seq<Row>, available: set<Name>, p: Path)
    requires Gather(rows, available).Some?
    ensures var later, rest := Saved(r, t, current, rows, available), Excluding(r, Some(t));
            && RepoUnion(later, p) == RepoUnion(rest, p) + RowsUnion(rows, p)
            && (forall mode :: RepoFits(later, p, mode) <==> RepoFits(rest, p, mode) && RowsFit(rows, p, mode))
  {
    hide RepoUnion, RepoFits, RowsUnion, RowsFit, Apply;
    var later, rest := Saved(r, t, current, rows, available), Excluding(r, Some(t));
    SavedOwners(r, t, current, rows, available);
    TargetRows(later, Excluding(later, Some(t)), t, rows, p);
    assert Excluding(later, Some(t)).targets == rest.targets;
    SameTargets(Excluding(later, Some(t)), rest, p);
  }

  lemma SameTargets(a: Registry, b: Registry, p: Path)
    requires a.targets == b.targets
    ensures RepoUnion(a, p) == RepoUnion(b, p)
    ensures forall mode :: RepoFits(a, p, mode) <==> RepoFits(b, p, mode)
  {
    hide RowsUnion, RowsFit;
  }

  /** What everybody's repository rows expose, told apart by whether the target counts. */
  lemma RepoBefore(r: Registry, t: TargetKey, p: Path)
    ensures RepoUnion(r, p) == RepoUnion(Excluding(r, Some(t)), p) + Exposed(r, t, p)
    ensures forall mode :: RepoFits(r, p, mode) ==> RepoFits(Excluding(r, Some(t)), p, mode)
  {
    hide RowsUnion, RowsFit, RepoUnion, RepoFits;
    if t in r.targets {
      TargetRows(r, Excluding(r, Some(t)), t, r.targets[t].rows, p);
    } else {
      assert r.targets - {t} == r.targets;
    }
  }

  lemma Unclaimed(rows: seq<Row>, p: Path)
    requires !Claimed(rows, p)
    ensures RowsUnion(rows, p) == {} && forall mode :: RowsFit(rows, p, mode)
  {
  }

  /** Which records apply at a personal row's path afterwards: the row's owners', and everybody's who was not
      selected. */
  lemma RowOwners(rows: seq<Row>, available: set<Name>, i: nat, o: OwnerKey)
    requires WellPaired(rows) && Gather(rows, available).Some?
    requires i < |rows| && rows[i].PersonalRow? && PersonalSelections(rows[i]).Some?
    ensures var selected := SelectedBy(rows, available);
            && (o in selected && rows[i].path in selected[o].paths <==> o in rows[i].owners)
            && (o in rows[i].owners ==>
                  var names := PersonalSelections(rows[i]).value;
                  o in names && selected[o].packages == names[o] && selected[o].mode == rows[i].mode)
    ensures PersonalSelections(rows[i]).value.Keys == rows[i].owners
  {
    hide Gather, PersonalSelections;
    var selected := SelectedBy(rows, available);
    GatherMeaning(rows, available, o);
    SelectionKeys(rows[i]);
    NotListed(rows, o, i);
    if o in selected && rows[i].path in PathsOf(rows, o) {
      var j :| 0 <= j < |rows| && Lists(rows[j], o) && rows[j].path == rows[i].path;
      assert j == i;
    }
    if Lists(rows[i], o) {
      assert PathsOf(rows, o) != {};
      assert PackageRegistries.Agrees(rows[i], o, selected[o]);
    }
  }

  lemma SelectionKeys(row: Row)
    requires row.PersonalRow? && PersonalSelections(row).Some?
    ensures PersonalSelections(row).value.Keys == row.owners
  {
  }

  lemma OtherPaths(rows: seq<Row>, available: set<Name>, p: Path, o: OwnerKey)
    requires Gather(rows, available).Some? && !PersonalAt(rows, p)
    ensures o in SelectedBy(rows, available) ==> p !in SelectedBy(rows, available)[o].paths
  {
    hide Gather, PersonalSelections;
    GatherMeaning(rows, available, o);
  }

  /** What a personal row's write puts in place on behalf of owners: theirs afterwards, and what dropped owners had. */
  lemma PersonalNames(owners: map<OwnerKey, OwnerRecord>, rows: seq<Row>, available: set<Name>, i: nat, n: Name)
    requires WellPaired(rows) && Gather(rows, available).Some?
    requires i < |rows| && rows[i].PersonalRow? && PersonalSelections(rows[i]).Some?
    ensures var names, p, selected := PersonalSelections(rows[i]).value, rows[i].path, SelectedBy(rows, available);
            n in Union(names) + OwnersUnion(owners - names.Keys, p) <==>
              || n in OwnersUnion(owners + selected, p)
              || exists o :: Dropped(owners, selected, o, p) && n in owners[o].packages
  {
    var p, names, selected := rows[i].path, PersonalSelections(rows[i]).value, SelectedBy(rows, available);
    RowOwners(rows, available, i, "");
    hide WellPaired, PersonalSelections, SelectedBy;
    var others := owners - names.Keys;
    if n in OwnersUnion(others, p) {
      var o :| o in others && p in others[o].paths && n in others[o].packages;
      RowOwners(rows, available, i, o);
      assert At(owners, o, p);
      if o in selected {
        assert Dropped(owners, selected, o, p);
      } else {
        assert o in owners + selected && (owners + selected)[o] == owners[o];
      }
    }
    if n in Union(names) {
      var o :| o in names && n in names[o];
      RowOwners(rows, available, i, o);
      assert (owners + selected)[o] == selected[o];
    }
    if n in OwnersUnion(owners + selected, p) {
      var o :| o in owners + selected && p in (owners + selected)[o].paths && n in (owners + selected)[o].packages;
      RowOwners(rows, available, i, o);
      assert o !in selected ==> o in others;
    }
    if o :| Dropped(owners, selected, o, p) && n in owners[o].packages {
      RowOwners(rows, available, i, o);
      assert o in others && others[o] == owners[o];
    }
  }

  /** At a path without a personal row, what owners had is what they have and what dropped owners had. */
  lemma OtherNames(owners: map<OwnerKey, OwnerRecord>, rows: seq<Row>, available: set<Name>, p: Path, n: Name)
    requires Gather(rows, available).Some? && !PersonalAt(rows, p)
    ensures var selected := SelectedBy(rows, available);
            n in OwnersUnion(owners, p) <==>
              || n in OwnersUnion(owners + selected, p)
              || exists o :: Dropped(owners, selected, o, p) && n in owners[o].packages
  {
    var selected := SelectedBy(rows, available);
    hide SelectedBy, PersonalAt;
    if n in OwnersUnion(owners, p) {
      var o :| o in owners && p in owners[o].paths && n in owners[o].packages;
      OtherPaths(rows, available, p, o);
      assert At(owners, o, p);
      if o in selected {
        assert Dropped(owners, selected, o, p);
      } else {
        assert (owners + selected)[o] == owners[o];
      }
    }
    if n in OwnersUnion(owners + selected, p) {
      var o :| o in owners + selected && p in (owners + selected)[o].paths && n in (owners + selected)[o].packages;
      OtherPaths(rows, available, p, o);
    }
  }

  lemma OwnersAtUnion(owners: map<OwnerKey, OwnerRecord>, p: Path)
    ensures var here := OwnersAt(owners, p);
            Union(here) + OwnersUnion(owners - here.Keys, p) == OwnersUnion(owners, p)
  {
    var here := OwnersAt(owners, p);
    forall n | n in OwnersUnion(owners, p)
      ensures n in Union(here)
    {
      var o :| o in owners && p in owners[o].paths && n in owners[o].packages;
      assert o in here && here[o] == owners[o].packages;
    }
    forall n | n in Union(here)
      ensures n in OwnersUnion(owners, p)
    {
      var o :| o in here && n in here[o];
    }
  }

  /** What a shared row's write puts in place on behalf of owners. */
  lemma SpokenNames(r: Registry, t: TargetKey, rows: seq<Row>, available: set<Name>, i: nat, n: Name)
    requires WellPaired(rows) && Gather(rows, available).Some? && i < |rows|
    requires Shares(r.owners, rows, rows[i]) && SpeaksFor(r.owners, rows[i]).Some?
    ensures var names, p, selected := SpeaksFor(r.owners, rows[i]).value, rows[i].path, SelectedBy(rows, available);
            n in Union(names) + OwnersUnion(r.owners - names.Keys, p) <==>
              n in OwnersUnion(r.owners + selected, p) || DroppedName(r, selected, p, n)
  {
    hide Union, OwnersUnion, WellPaired, PersonalAt, SelectedBy, PersonalSelections;
    if rows[i].PersonalRow? {
      PersonalNames(r.owners, rows, available, i, n);
    } else {
      OwnersAtUnion(r.owners, rows[i].path);
      OtherNames(r.owners, rows, available, rows[i].path, n);
    }
  }

  /** What a shared row's write puts in place: the union afterwards, and what was given up at the path. */
  lemma RowNamesMeaning(r: Registry, t: TargetKey, current: set<PackageId>, rows: seq<Row>, available: set<Name>,
                        i: nat, n: Name)
    requires WellPaired(rows) && Gather(rows, available).Some? && i < |rows|
    requires Shares(r.owners, rows, rows[i]) && RowNames(r, t, rows, rows[i]).Some?
    ensures n in RowNames(r, t, rows, rows[i]).value <==>
              || n in UnionAt(Saved(r, t, current, rows, available), rows[i].path)
              || GivenUp(r, t, rows, available, rows[i].path, n)
  {
    var p := rows[i].path;
    SavedOwners(r, t, current, rows, available);
    SavedRepo(r, t, current, rows, available, p);
    RepoBefore(r, t, p);
    if !Claimed(rows, p) {
      Unclaimed(rows, p);
    }
    SpokenNames(r, t, rows, available, i, n);
    hide Apply, RepoUnion, RepoFits, RowsUnion, Union, OwnersUnion, OwnersFit, SpeaksFor, DroppedName, Exposed,
      Claimed, Shares, WellPaired;
  }

  /** Every repository row at a written path has the row's mode afterwards. */
  lemma RowFitsRepo(r: Registry, t: TargetKey, current: set<PackageId>, rows: seq<Row>, available: set<Name>, i: nat)
    requires WellPaired(rows) && Gather(rows, available).Some? && i < |rows|
    requires RepoFits(Excluding(r, Replaced(t, rows, rows[i].path)), rows[i].path, rows[i].mode)
    ensures RepoFits(Saved(r, t, current, rows, available), rows[i].path, rows[i].mode)
  {
    var p, mode := rows[i].path, rows[i].mode;
    SavedRepo(r, t, current, rows, available, p);
    RepoBefore(r, t, p);
    assert RowsFit(rows, p, mode);
    hide Apply, RepoUnion, RepoFits, RowsUnion, RowsFit, Gather, WellPaired;
  }

  /** Every owner at a written path has the row's mode afterwards. */
  lemma RowFitsOwners(owners: map<OwnerKey, OwnerRecord>, rows: seq<Row>, available: set<Name>, i: nat)
    requires WellPaired(rows) && Gather(rows, available).Some? && i < |rows| && Shares(owners, rows, rows[i])
    requires SpeaksFor(owners, rows[i]).Some?
    requires OwnersFit(owners - SpeaksFor(owners, rows[i]).value.Keys, rows[i].path, rows[i].mode)
    ensures OwnersFit(owners + SelectedBy(rows, available), rows[i].path, rows[i].mode)
  {
    var p, mode, selected := rows[i].path, rows[i].mode, SelectedBy(rows, available);
    hide PersonalSelections, Gather, WellPaired, SelectedBy, PersonalAt;
    var others := owners - SpeaksFor(owners, rows[i]).value.Keys;
    forall o | o in owners + selected && p in (owners + selected)[o].paths
      ensures (owners + selected)[o].mode == mode
    {
      if rows[i].PersonalRow? {
        RowOwners(rows, available, i, o);
        if o !in selected {
          assert o in others && others[o] == owners[o];
        }
      } else {
        OtherPaths(rows, available, p, o);
      }
    }
  }

  /** Everybody at a written path has the row's mode afterwards. */
  lemma RowFits(r: Registry, t: TargetKey, current: set<PackageId>, rows: seq<Row>, available: set<Name>, i: nat)
    requires WellPaired(rows) && Gather(rows, available).Some? && i < |rows|
    requires Shares(r.owners, rows, rows[i]) && RowNames(r, t, rows, rows[i]).Some?
    ensures OwnersFit(Saved(r, t, current, rows, available).owners, rows[i].path, rows[i].mode)
    ensures RepoFits(Saved(r, t, current, rows, available), rows[i].path, rows[i].mode)
  {
    hide Apply, RepoFits, OwnersFit, Shares, SpeaksFor, Gather, WellPaired, RowsUnion, Replaced, SelectedBy, Saved;
    SavedOwners(r, t, current, rows, available);
    RowFitsRepo(r, t, current, rows, available, i);
    RowFitsOwners(r.owners, rows, available, i);
  }

  /** What was written at a path equals the union afterwards exactly when everything given up is covered. */
  lemma CoverMeansUnion(r: Registry, t: TargetKey, current: set<PackageId>, rows: seq<Row>, available: set<Name>,
                        p: Path, written: set<Name>)
    requires forall n :: n in written <==>
               || n in UnionAt(Saved(r, t, current, rows, available), p) || GivenUp(r, t, rows, available, p, n)
    ensures written == UnionAt(Saved(r, t, current, rows, available), p)
            <==> CoveredAt(r, t, current, rows, available, p)
  {
    hide UnionAt, Saved, GivenUp;
    var union := UnionAt(Saved(r, t, current, rows, available), p);
    if CoveredAt(r, t, current, rows, available, p) {
      assert forall n :: n in written <==> n in union;
    }
  }

  lemma WrittenAgreesWith(a: Adapter, names: set<Name>, mode: Mode, union: set<Name>)
    requires !Collides(a, names)
    ensures PersonalAdapters.Agrees(Written(a, names, mode), union) <==> names == union && !Stray(a, names, mode)
  {
    WrittenAgrees(a, names, mode);
    assert Marked(Written(a, names, mode)) == names;
  }

  /** A shared row's directory agrees afterwards exactly when what is given up is covered and no stray joins. */
  lemma AttachedRow(w: World, t: TargetKey, current: set<PackageId>, rows: seq<Row>, available: set<Name>,
                    library: set<Name>, later: World, i: nat)
    requires AttachReady(w, t, rows, available, library) && Attached(w, t, current, rows, available, later)
    requires i < |rows| && Shares(w.registry.owners, rows, rows[i])
    ensures InvAt(later, rows[i].path) <==>
              CoveredAt(w.registry, t, current, rows, available, rows[i].path) && Strayless(w, t, rows, rows[i])
  {
    var r, row := w.registry, rows[i];
    var p, a := row.path, AdapterAt(w, row.path);
    hide Shares, RowNames, WellPaired, UnionAt, GivenUp, Saved, Written, Stray, CoveredAt, Gather, Collides,
      AdapterAt, OwnersFit, RepoFits, PersonalAt, Claimed;
    assert RowReady(r, a, t, rows, row, library) && RowWritten(w, t, rows, row, later);
    var names := RowNames(r, t, rows, row).value;
    forall n
      ensures n in names <==> n in UnionAt(later.registry, p) || GivenUp(r, t, rows, available, p, n)
    {
      RowNamesMeaning(r, t, current, rows, available, i, n);
    }
    CoverMeansUnion(r, t, current, rows, available, p, names);
    RowFits(r, t, current, rows, available, i);
    WrittenAgreesWith(a, names, row.mode, UnionAt(later.registry, p));
    WrittenUnder(a, names, row.mode);
  }

  lemma WrittenUnder(a: Adapter, names: set<Name>, mode: Mode)
    ensures Written(a, names, mode).marker == Some(Marker(names, mode))
  {
  }

  /** A directory no row concerns stays as it is, and agrees afterwards exactly when what is given up is covered. */
  lemma AttachedElsewhere(w: World, t: TargetKey, current: set<PackageId>, rows: seq<Row>, available: set<Name>,
                          later: World, p: Path)
    requires InvAt(w, p) && Gather(rows, available).Some? && Attached(w, t, current, rows, available, later)
    requires !PersonalAt(rows, p) && !Claimed(rows, p)
    ensures InvAt(later, p) <==> CoveredAt(w.registry, t, current, rows, available, p)
  {
    var r, a, selected := w.registry, AdapterAt(w, p), SelectedBy(rows, available);
    SavedOwners(r, t, current, rows, available);
    SavedRepo(r, t, current, rows, available, p);
    RepoBefore(r, t, p);
    Unclaimed(rows, p);
    assert AdapterAt(later, p) == a;
    hide Attached, Apply, RepoUnion, RepoFits, RowsUnion, RowsFit, OwnersUnion, PersonalAt, Claimed, Gather, CoveredAt,
      AdapterAt, SelectedBy;
    forall n
      ensures n in UnionAt(r, p) <==> n in UnionAt(later.registry, p) || GivenUp(r, t, rows, available, p, n)
    {
      OtherNames(r.owners, rows, available, p, n);
    }
    CoverMeansUnion(r, t, current, rows, available, p, UnionAt(r, p));
    forall o | At(r.owners + selected, o, p)
      ensures At(r.owners, o, p) && (r.owners + selected)[o] == r.owners[o]
    {
      OtherPaths(rows, available, p, o);
    }
    FitsStay(r, later.registry, a, p);
    if InvAt(later, p) {
      assert Marked(a) == UnionAt(later.registry, p);
    }
  }

  lemma FitsStay(r: Registry, later: Registry, a: Adapter, p: Path)
    requires Fits(r, a, p)
    requires forall o :: At(later.owners, o, p) ==> At(r.owners, o, p) && later.owners[o] == r.owners[o]
    requires forall mode :: RepoFits(r, p, mode) ==> RepoFits(later, p, mode)
    ensures Fits(later, a, p)
  {
    hide RepoFits;
    assert forall o :: o in later.owners && p in later.owners[o].paths ==> At(later.owners, o, p);
  }

  /** A repository's own directory gives nothing up. */
  lemma OwnCovered(r: Registry, t: TargetKey, current: set<PackageId>, rows: seq<Row>, available: set<Name>, p: Path)
    requires Claimed(rows, p) && !SomebodyAt(r.owners, p)
    ensures CoveredAt(r, t, current, rows, available, p)
  {
    hide UnionAt, Saved, SelectedBy;
    assert forall o :: !At(r.owners, o, p);
  }

  /** At most one repository row stands at a path. */
  lemma OnlyRow(rows: seq<Row>, i: nat)
    requires WellPaired(rows) && i < |rows| && rows[i].RepoRow?
    ensures RowsUnion(rows, rows[i].path) == rows[i].packages
    ensures forall mode :: RowsFit(rows, rows[i].path, mode) <==> rows[i].mode == mode
  {
    assert Claims(rows[i], rows[i].path);
    assert forall j :: 0 <= j < |rows| && Claims(rows[j], rows[i].path) ==> j == i;
  }

  /** A repository's own directory agrees afterwards exactly when it forgot nobody and left nothing managed behind. */
  lemma AttachedOwn(w: World, t: TargetKey, current: set<PackageId>, rows: seq<Row>, available: set<Name>,
                    library: set<Name>, later: World, i: nat)
    requires AttachReady(w, t, rows, available, library) && Attached(w, t, current, rows, available, later)
    requires i < |rows| && Own(w.registry.owners, rows, rows[i])
    ensures CoveredAt(w.registry, t, current, rows, available, rows[i].path)
    ensures InvAt(later, rows[i].path) <==> Strayless(w, t, rows, rows[i])
  {
    var r, row := w.registry, rows[i];
    var p, a := row.path, AdapterAt(w, row.path);
    assert Claims(rows[i], p);
    OwnCovered(r, t, current, rows, available, p);
    SavedOwners(r, t, current, rows, available);
    SavedRepo(r, t, current, rows, available, p);
    OnlyRow(rows, i);
    assert RowWritten(w, t, rows, row, later);
    ScopedAgrees(a, row.packages, row.mode);
    NobodyThere(r.owners, rows, available, p);
    hide CoveredAt, WellPaired, Gather, Saved, Scoped, LeftManaged, RepoUnion, RepoFits, RowsUnion, RowsFit,
      OwnersUnion, SelectedBy, Stray, RowNames, PersonalAt, SomebodyAt, AdapterAt, AttachReady, Attached;
    assert Marked(AdapterAt(later, p)) == row.packages;
    assert forall o :: o in later.registry.owners && p in later.registry.owners[o].paths ==>
           At(later.registry.owners, o, p);
  }

  lemma NobodyThere(owners: map<OwnerKey, OwnerRecord>, rows: seq<Row>, available: set<Name>, p: Path)
    requires Gather(rows, available).Some? && !PersonalAt(rows, p) && !SomebodyAt(owners, p)
    ensures OwnersUnion(owners + SelectedBy(rows, available), p) == {}
    ensures forall o :: !At(owners + SelectedBy(rows, available), o, p)
  {
    hide Gather, PersonalAt;
    forall o
      ensures !At(owners + SelectedBy(rows, available), o, p)
    {
      OtherPaths(rows, available, p, o);
    }
    var all := owners + SelectedBy(rows, available);
    assert forall o :: o in all && p in all[o].paths ==> At(all, o, p);
  }

  /**
   * An installation keeps every directory in agreement exactly when what its
   * owners and the target expose no more is still wanted wherever they gave it
   * up, no unwanted entry turns or stays managed under a written marker, and no
   * other repository wants more, or another mode, in a directory it writes alone.
   */
  lemma AttachKeepsAgreement(w: World, t: TargetKey, current: set<PackageId>, rows: seq<Row>, available: set<Name>,
                             library: set<Name>, later: World)
    requires PersonalAdapters.Inv(w) && AttachReady(w, t, rows, available, library)
    requires Attached(w, t, current, rows, available, later)
    ensures PersonalAdapters.Inv(later) <==>
              && (forall p {:trigger CoveredAt(w.registry, t, current, rows, available, p)} ::
                    CoveredAt(w.registry, t, current, rows, available, p))
              && NoStrays(w, t, rows)
  {
    hide InvAt, CoveredAt, Attached, AttachReady, Strayless;
    var r := w.registry;
    assert Gather(rows, available).Some? && WellPaired(rows) by {
      AttachGathers(w, t, rows, available, library);
    }
    hide Gather, WellPaired;
    forall p {:trigger InvAt(later, p)}
      ensures (forall i {:trigger rows[i]} :: 0 <= i < |rows| && rows[i].path == p ==>
                Strayless(w, t, rows, rows[i])) ==>
                (InvAt(later, p) <==> CoveredAt(r, t, current, rows, available, p))
      ensures InvAt(later, p) ==>
                && CoveredAt(r, t, current, rows, available, p)
                && forall i {:trigger rows[i]} :: 0 <= i < |rows| && rows[i].path == p ==>
                    Strayless(w, t, rows, rows[i])
    {
      assert InvAt(w, p);
      AttachedAt(w, t, current, rows, available, library, later, p);
    }
    if PersonalAdapters.Inv(later) {
      forall i {:trigger rows[i]} | 0 <= i < |rows|
        ensures Strayless(w, t, rows, rows[i])
      {
        assert InvAt(later, rows[i].path);
      }
      forall p
        ensures InvAt(later, p) && CoveredAt(r, t, current, rows, available, p)
      {
      }
    }
  }

  lemma AttachGathers(w: World, t: TargetKey, rows: seq<Row>, available: set<Name>, library: set<Name>)
    requires AttachReady(w, t, rows, available, library)
    ensures Gather(rows, available).Some? && WellPaired(rows)
  {
  }

  /** The three kinds of path: shared, the repository's own, and untouched. */
  lemma AttachedAt(w: World, t: TargetKey, current: set<PackageId>, rows: seq<Row>, available: set<Name>,
                   library: set<Name>, later: World, p: Path)
    requires InvAt(w, p) && AttachReady(w, t, rows, available, library)
    requires Attached(w, t, current, rows, available, later)
    ensures var strayless := forall i {:trigger rows[i]} :: 0 <= i < |rows| && rows[i].path == p ==>
                               Strayless(w, t, rows, rows[i]);
            InvAt(later, p) <==> CoveredAt(w.registry, t, current, rows, available, p) && strayless
  {
    var r := w.registry;
    AttachGathers(w, t, rows, available, library);
    hide InvAt, CoveredAt, Attached, AttachReady, Gather, RowNames, Stray;
    forall i {:trigger rows[i]} | 0 <= i < |rows| && rows[i].path == p && Shares(r.owners, rows, rows[i])
      ensures InvAt(later, p) <==> CoveredAt(r, t, current, rows, available, p) && Strayless(w, t, rows, rows[i])
    {
      AttachedRow(w, t, current, rows, available, library, later, i);
    }
    forall i {:trigger rows[i]} | 0 <= i < |rows| && rows[i].path == p && Own(r.owners, rows, rows[i])
      ensures CoveredAt(r, t, current, rows, available, p)
      ensures InvAt(later, p) <==> Strayless(w, t, rows, rows[i])
    {
      AttachedOwn(w, t, current, rows, available, library, later, i);
    }
    if !PersonalAt(rows, p) && !Claimed(rows, p) {
      AttachedElsewhere(w, t, current, rows, available, later, p);
    }
  }

  // ----- when an installation goes through -----

  /** Everybody else at the row's path has its mode; the target's earlier rows count only where it brings none. */
  ghost predicate ModesMeet(r: Registry, t: TargetKey, rows: seq<Row>, row: Row) {
    && (forall o :: At(r.owners, o, row.path) && !Lists(row, o) ==> r.owners[o].mode == row.mode)
    && forall u, i ::
         && u in r.targets && 0 <= i < |r.targets[u].rows| && Claims(r.targets[u].rows[i], row.path)
         && (u != t || !Claimed(rows, row.path)) ==>
           r.targets[u].rows[i].mode == row.mode
  }

  /** Nothing stands in the row's way: where somebody shares the directory the modes meet, and what is written there is
      in the library and free or the tool's own; alone, the row's packages are. */
  ghost predicate Clear(w: World, t: TargetKey, current: set<PackageId>, rows: seq<Row>, available: set<Name>,
                        library: set<Name>, row: Row)
  {
    var p, a := row.path, AdapterAt(w, row.path);
    if row.RepoRow? && PersonalAt(rows, p) then true
    else if row.RepoRow? && forall o :: !At(w.registry.owners, o, p) then
      forall n :: n in row.packages ==>
        n in library && (n in a.entries ==> a.entries[n] == if MarkerMode(a) == Portable then Copy(true) else Link)
    else
      && ModesMeet(w.registry, t, rows, row)
      && forall n :: n in UnionAt(Saved(w.registry, t, current, rows, available), p)
                     || GivenUp(w.registry, t, rows, available, p, n) ==>
           n in library && Open(a, n)
  }

  /** An installation of paired, recordable rows goes through exactly when nothing stands in any row's way. */
  lemma AttachIsReady(w: World, t: TargetKey, current: set<PackageId>, rows: seq<Row>, available: set<Name>,
                      library: set<Name>)
    requires WellPaired(rows) && Gather(rows, available).Some?
    ensures AttachReady(w, t, rows, available, library) <==>
              forall i {:trigger rows[i]} :: 0 <= i < |rows| ==>
                Clear(w, t, current, rows, available, library, rows[i])
  {
    hide WellPaired, Gather, RowReady, Clear, AdapterAt;
    forall i {:trigger rows[i]} | 0 <= i < |rows|
      ensures RowReady(w.registry, AdapterAt(w, rows[i].path), t, rows, rows[i], library)
              <==> Clear(w, t, current, rows, available, library, rows[i])
    {
      RowIsReady(w, t, current, rows, available, library, i);
    }
  }

  lemma RowIsReady(w: World, t: TargetKey, current: set<PackageId>, rows: seq<Row>, available: set<Name>,
                   library: set<Name>, i: nat)
    requires WellPaired(rows) && Gather(rows, available).Some? && i < |rows|
    ensures RowReady(w.registry, AdapterAt(w, rows[i].path), t, rows, rows[i], library)
            <==> Clear(w, t, current, rows, available, library, rows[i])
  {
    var r, row, a := w.registry, rows[i], AdapterAt(w, rows[i].path);
    hide WellPaired, Gather, AdapterAt, RowNames, Saved, GivenUp, UnionAt, PersonalAt, Claimed, ModesMeet, Collides;
    assert SomebodyAt(r.owners, row.path) <==> exists o :: At(r.owners, o, row.path) by {
      Somebody(r.owners, row.path);
    }
    if Shares(r.owners, rows, row) {
      NamesMeet(r, t, rows, available, i);
      if RowNames(r, t, rows, row).Some? {
        CollidesMeans(a, RowNames(r, t, rows, row).value);
        forall n
          ensures n in RowNames(r, t, rows, row).value <==>
                    n in UnionAt(Saved(r, t, current, rows, available), row.path)
                    || GivenUp(r, t, rows, available, row.path, n)
        {
          RowNamesMeaning(r, t, current, rows, available, i, n);
        }
      }
    }
  }

  lemma Somebody(owners: map<OwnerKey, OwnerRecord>, p: Path)
    ensures SomebodyAt(owners, p) <==> exists o :: At(owners, o, p)
  {
    if o :| o in owners && p in owners[o].paths {
      assert At(owners, o, p);
    }
    if o :| At(owners, o, p) {
      assert o in owners && p in owners[o].paths;
    }
  }

  /** The names of a shared row are known exactly when the modes meet. */
  lemma NamesMeet(r: Registry, t: TargetKey, rows: seq<Row>, available: set<Name>, i: nat)
    requires Gather(rows, available).Some? && i < |rows| && Shares(r.owners, rows, rows[i])
    ensures RowNames(r, t, rows, rows[i]).Some? <==> ModesMeet(r, t, rows, rows[i])
  {
    var row := rows[i];
    GatherExact(rows, available);
    assert WellChosen(row);
    ChosenMeans(row);
    RepoModes(r, t, rows, row);
    hide Gather, PersonalSelections, RepoFits, WellChosen;
    forall o | o in r.owners && row.path in r.owners[o].paths
      ensures At(r.owners, o, row.path)
    {
    }
    if row.PersonalRow? {
      var others := r.owners - PersonalSelections(row).value.Keys;
      assert forall o :: o in others <==> o in r.owners && !Lists(row, o);
    } else {
      var others := r.owners - OwnersAt(r.owners, row.path).Keys;
      assert OwnersFit(others, row.path, row.mode);
    }
  }

  lemma RepoModes(r: Registry, t: TargetKey, rows: seq<Row>, row: Row)
    ensures RepoFits(Excluding(r, Replaced(t, rows, row.path)), row.path, row.mode) <==>
              forall u, i ::
                && u in r.targets && 0 <= i < |r.targets[u].rows| && Claims(r.targets[u].rows[i], row.path)
                && (u != t || !Claimed(rows, row.path)) ==>
                  r.targets[u].rows[i].mode == row.mode
  {
    hide Claimed;
    var rest := Excluding(r, Replaced(t, rows, row.path)).targets;
    assert forall u :: u in rest <==> u in r.targets && (u != t || !Claimed(rows, row.path));
    assert forall u :: u in rest ==> rest[u] == r.targets[u];
  }

  // ----- detaching a target from shared directories -----

  /** The target's rows without those removed: nothing at the removed rows' paths, the same elsewhere. */
  ghost predicate Keeps(rows: seq<Row>, removed: seq<Row>, kept: seq<Row>) {
    && (forall p :: RowsUnion(kept, p) == if Claimed(removed, p) then {} else RowsUnion(rows, p))
    && (forall p, mode :: RowsFit(kept, p, mode) <==> Claimed(removed, p) || RowsFit(rows, p, mode))
  }

  /** The names left at a removed row's path: everybody else's, in the recorded mode. */
  function LeftNames(r: Registry, t: TargetKey, row: Row): Option<set<Name>> {
    if OwnersFit(r.owners, row.path, row.mode) then
      Selection(r, row.path, row.mode, OwnersAt(r.owners, row.path), Some(t), {})
    else None
  }

  /** A removed row's directory can be cleared, or, where some owner shares it, rewritten without the target's names. */
  predicate RowReleasable(r: Registry, a: Adapter, t: TargetKey, row: Row, library: set<Name>) {
    && row.RepoRow?
    && (SomebodyAt(r.owners, row.path) ==>
          match LeftNames(r, t, row)
          case None => false
          case Some(names) => names <= library && !Collides(a, names))
  }

  /** The receipts agree on what goes: each removed row stands alone at its path, and a target that goes keeps
      nothing. */
  ghost predicate Receipts(r: Registry, t: TargetKey, kept: seq<Row>, remaining: bool, removed: seq<Row>) {
    && Keeps(if t in r.targets then r.targets[t].rows else [], removed, kept)
    && (!remaining ==> kept == []) && WellPaired(removed)
    && forall i {:trigger removed[i]} :: 0 <= i < |removed| ==> removed[i].RepoRow?
  }

  ghost predicate ReleaseReady(w: World, t: TargetKey, kept: seq<Row>, remaining: bool, removed: seq<Row>,
                               library: set<Name>)
  {
    && Receipts(w.registry, t, kept, remaining, removed)
    && forall i {:trigger removed[i]} :: 0 <= i < |removed| ==>
         RowReleasable(w.registry, AdapterAt(w, removed[i].path), t, removed[i], library)
  }

  /** A removed row's directory: rewritten for the owners who share it, else cleared of what is managed. */
  ghost predicate RowLeft(w: World, t: TargetKey, row: Row, later: World)
    requires row.RepoRow?
  {
    if SomebodyAt(w.registry.owners, row.path) then
      LeftNames(w.registry, t, row).Some? ==>
        AdapterAt(later, row.path)
        == Written(AdapterAt(w, row.path), LeftNames(w.registry, t, row).value, row.mode)
    else AdapterAt(later, row.path) == Cleared(AdapterAt(w, row.path), row.packages)
  }

  /** No other repository claims the path, and no link to the library stays behind in it. */
  ghost predicate ClearedWhole(w: World, t: TargetKey, row: Row)
    requires row.RepoRow?
  {
    !SomebodyAt(w.registry.owners, row.path) ==>
      && (forall u :: u in w.registry.targets && u != t ==> !Claimed(w.registry.targets[u].rows, row.path))
      && !LinkLeft(AdapterAt(w, row.path), row.packages)
  }

  /** `later` follows from `w` by rewriting or clearing the directories and saving the registry. */
  ghost predicate LeftBehind(w: World, t: TargetKey, kept: seq<Row>, remaining: bool, removed: seq<Row>, later: World) {
    && later.registry == DetachTarget(w.registry, t, kept, remaining)
    && (forall i {:trigger removed[i]} :: 0 <= i < |removed| ==>
          removed[i].RepoRow? && RowLeft(w, t, removed[i], later))
    && (forall p {:trigger AdapterAt(later, p)} :: !Claimed(removed, p) ==> AdapterAt(later, p) == AdapterAt(w, p))
  }

  lemma KeptRepo(r: Registry, t: TargetKey, kept: seq<Row>, remaining: bool, removed: seq<Row>, p: Path)
    requires Keeps(if t in r.targets then r.targets[t].rows else [], removed, kept) && (!remaining ==> kept == [])
    ensures var later, rest := DetachTarget(r, t, kept, remaining), Excluding(r, Some(t));
            && later.owners == r.owners
            && (Claimed(removed, p) ==>
                  && RepoUnion(later, p) == RepoUnion(rest, p)
                  && forall mode :: RepoFits(later, p, mode) <==> RepoFits(rest, p, mode))
            && (!Claimed(removed, p) ==>
                  && RepoUnion(later, p) == RepoUnion(r, p)
                  && forall mode :: RepoFits(later, p, mode) <==> RepoFits(r, p, mode))
  {
    hide RowsUnion, RowsFit, RepoUnion, RepoFits, Claimed;
    var later, rest := DetachTarget(r, t, kept, remaining), Excluding(r, Some(t));
    NoRows(p);
    if t in r.targets {
      TargetRows(r, rest, t, r.targets[t].rows, p);
      if remaining {
        assert later.targets - {t} == rest.targets;
        TargetRows(later, Excluding(later, Some(t)), t, kept, p);
        SameTargets(Excluding(later, Some(t)), rest, p);
      } else {
        SameTargets(later, rest, p);
      }
    } else {
      assert later.targets == r.targets == rest.targets;
      SameTargets(later, rest, p);
      SameTargets(later, r, p);
    }
  }

  lemma NoRows(p: Path)
    ensures RowsUnion([], p) == {} && forall mode :: RowsFit([], p, mode)
  {
  }

  lemma LeftAt(w: World, t: TargetKey, kept: seq<Row>, remaining: bool, removed: seq<Row>, library: set<Name>,
               later: World, i: nat)
    requires ReleaseReady(w, t, kept, remaining, removed, library)
    requires LeftBehind(w, t, kept, remaining, removed, later)
    requires i < |removed| && InvAt(w, removed[i].path) && SomebodyAt(w.registry.owners, removed[i].path)
    ensures InvAt(later, removed[i].path)
  {
    var r, row := w.registry, removed[i];
    var p, a := row.path, AdapterAt(w, row.path);
    KeptRepo(r, t, kept, remaining, removed, p);
    OwnersAtUnion(r.owners, p);
    assert Claimed(removed, p) by {
      assert Claims(removed[i], p);
    }
    assert RowLeft(w, t, row, later);
    var names := LeftNames(r, t, row).value;
    var o :| o in r.owners && p in r.owners[o].paths;
    assert At(r.owners, o, p) && a.marker.Some? && r.owners[o].mode == row.mode == a.marker.value.mode;
    hide Written, Union, OwnersUnion, RepoUnion, RepoFits, Claimed, Keeps, DetachTarget, AdapterAt, SomebodyAt,
      Collides;
    assert names == UnionAt(later.registry, p);
    WrittenAgreesWith(a, names, row.mode, names);
    WrittenMarker(a, names, row.mode);
  }

  /** A directory cleared for good agrees exactly when nobody else wants it and no link stays behind. */
  lemma ClearedAt(w: World, t: TargetKey, kept: seq<Row>, remaining: bool, removed: seq<Row>, library: set<Name>,
                  later: World, i: nat)
    requires ReleaseReady(w, t, kept, remaining, removed, library)
    requires LeftBehind(w, t, kept, remaining, removed, later)
    requires i < |removed| && !SomebodyAt(w.registry.owners, removed[i].path)
    ensures InvAt(later, removed[i].path) <==> ClearedWhole(w, t, removed[i])
  {
    var r, row := w.registry, removed[i];
    var p, a, rest := row.path, AdapterAt(w, row.path), Excluding(r, Some(t));
    KeptRepo(r, t, kept, remaining, removed, p);
    assert Claimed(removed, p) by {
      assert Claims(removed[i], p);
    }
    assert RowLeft(w, t, row, later);
    ClearedAgrees(a, row.packages);
    NobodyClaims(rest, p);
    OthersOf(r, t, p);
    assert OwnersUnion(r.owners, p) == {} && forall o :: !At(r.owners, o, p);
    hide Cleared, LinkLeft, RepoUnion, RepoFits, Claimed, Keeps, DetachTarget, AdapterAt, OwnersUnion, SomebodyAt,
      ReleaseReady, LeftBehind;
    assert Marked(AdapterAt(later, p)) == {};
    assert forall o :: !At(later.registry.owners, o, p);
  }

  lemma OthersOf(r: Registry, t: TargetKey, p: Path)
    ensures (forall u :: u in Excluding(r, Some(t)).targets ==> !Claimed(Excluding(r, Some(t)).targets[u].rows, p))
            <==> forall u :: u in r.targets && u != t ==> !Claimed(r.targets[u].rows, p)
  {
    hide Claimed;
    var rest := Excluding(r, Some(t)).targets;
    assert forall u :: u in rest <==> u in r.targets && u != t;
    assert forall u :: u in rest ==> rest[u] == r.targets[u];
  }

  lemma NobodyClaims(r: Registry, p: Path)
    ensures (forall mode :: RepoFits(r, p, mode)) <==> forall u :: u in r.targets ==> !Claimed(r.targets[u].rows, p)
    ensures (forall mode :: RepoFits(r, p, mode)) ==> RepoUnion(r, p) == {}
  {
    if forall mode :: RepoFits(r, p, mode) {
      forall u | u in r.targets
        ensures !Claimed(r.targets[u].rows, p)
      {
        assert RowsFit(r.targets[u].rows, p, Symlink) && RowsFit(r.targets[u].rows, p, Portable) by {
          assert RepoFits(r, p, Symlink) && RepoFits(r, p, Portable);
        }
      }
    }
    forall u | u in r.targets && !Claimed(r.targets[u].rows, p)
      ensures RowsUnion(r.targets[u].rows, p) == {} && forall mode :: RowsFit(r.targets[u].rows, p, mode)
    {
      Unclaimed(r.targets[u].rows, p);
    }
    hide RowsUnion, RowsFit, Claimed;
    if forall u :: u in r.targets ==> !Claimed(r.targets[u].rows, p) {
      assert RepoUnion(r, p) == {};
    }
  }

  ghost predicate AllClearedWhole(w: World, t: TargetKey, removed: seq<Row>) {
    forall i {:trigger removed[i]} :: 0 <= i < |removed| && removed[i].RepoRow? ==> ClearedWhole(w, t, removed[i])
  }

  /** A target's detach keeps every directory in agreement exactly when those it clears are nobody else's and keep no
      link behind. */
  lemma ReleaseKeepsAgreement(w: World, t: TargetKey, kept: seq<Row>, remaining: bool, removed: seq<Row>,
                              library: set<Name>, later: World)
    requires PersonalAdapters.Inv(w) && ReleaseReady(w, t, kept, remaining, removed, library)
    requires LeftBehind(w, t, kept, remaining, removed, later)
    ensures PersonalAdapters.Inv(later) <==> AllClearedWhole(w, t, removed)
  {
    hide LeftNames, RowLeft, Keeps, DetachTarget, RepoUnion, RepoFits, OwnersUnion, InvAt, ClearedWhole, SomebodyAt,
      WellPaired;
    forall i {:trigger removed[i]} | 0 <= i < |removed|
      ensures removed[i].RepoRow? && (InvAt(later, removed[i].path) <==> ClearedWhole(w, t, removed[i]))
    {
      assert InvAt(w, removed[i].path);
      ReleasedAt(w, t, kept, remaining, removed, library, later, i);
    }
    forall p {:trigger InvAt(later, p)}
      ensures AllClearedWhole(w, t, removed) || !Claimed(removed, p) ==> InvAt(later, p)
    {
      if Claimed(removed, p) {
        var i :| 0 <= i < |removed| && Claims(removed[i], p);
        assert removed[i].path == p;
      } else {
        assert InvAt(w, p);
        UntouchedAt(w, t, kept, remaining, removed, library, later, p);
      }
    }
  }

  lemma ReleasedAt(w: World, t: TargetKey, kept: seq<Row>, remaining: bool, removed: seq<Row>, library: set<Name>,
                   later: World, i: nat)
    requires ReleaseReady(w, t, kept, remaining, removed, library) && i < |removed| && InvAt(w, removed[i].path)
    requires LeftBehind(w, t, kept, remaining, removed, later)
    ensures removed[i].RepoRow? && (InvAt(later, removed[i].path) <==> ClearedWhole(w, t, removed[i]))
  {
    assert removed[i].RepoRow?;
    hide ReleaseReady, LeftBehind, InvAt, SomebodyAt;
    if SomebodyAt(w.registry.owners, removed[i].path) {
      LeftAt(w, t, kept, remaining, removed, library, later, i);
    } else {
      ClearedAt(w, t, kept, remaining, removed, library, later, i);
    }
  }

  lemma UntouchedAt(w: World, t: TargetKey, kept: seq<Row>, remaining: bool, removed: seq<Row>, library: set<Name>,
                    later: World, p: Path)
    requires ReleaseReady(w, t, kept, remaining, removed, library) && InvAt(w, p) && !Claimed(removed, p)
    requires LeftBehind(w, t, kept, remaining, removed, later)
    ensures InvAt(later, p)
  {
    hide LeftNames, RowLeft, DetachTarget, RepoUnion, RepoFits, OwnersUnion, Claimed, WellPaired;
    KeptRepo(w.registry, t, kept, remaining, removed, p);
    assert AdapterAt(later, p) == AdapterAt(w, p);
    FitsStay(w.registry, later.registry, AdapterAt(w, p), p);
  }

  /** A removed row's directory can be rewritten: whoever stays has the row's mode, and what stays selected is in the
      library and free or the tool's own. */
  ghost predicate Leavable(w: World, t: TargetKey, kept: seq<Row>, remaining: bool, row: Row, library: set<Name>) {
    var r, p := w.registry, row.path;
    (exists o :: At(r.owners, o, p)) ==>
      && (forall o :: At(r.owners, o, p) ==> r.owners[o].mode == row.mode)
      && (forall u, i :: u in r.targets && u != t && 0 <= i < |r.targets[u].rows| && Claims(r.targets[u].rows[i], p) ==>
            r.targets[u].rows[i].mode == row.mode)
      && forall n :: n in UnionAt(DetachTarget(r, t, kept, remaining), p) ==> n in library && Open(AdapterAt(w, p), n)
  }

  /** A target's detach goes through exactly when every shared directory of a removed row can be rewritten. */
  lemma ReleaseIsReady(w: World, t: TargetKey, kept: seq<Row>, remaining: bool, removed: seq<Row>, library: set<Name>)
    requires Receipts(w.registry, t, kept, remaining, removed)
    ensures ReleaseReady(w, t, kept, remaining, removed, library) <==>
              forall i {:trigger removed[i]} :: 0 <= i < |removed| ==>
                Leavable(w, t, kept, remaining, removed[i], library)
  {
    hide Leavable, AdapterAt, WellPaired;
    forall i {:trigger removed[i]} | 0 <= i < |removed|
      ensures RowReleasable(w.registry, AdapterAt(w, removed[i].path), t, removed[i], library)
              <==> Leavable(w, t, kept, remaining, removed[i], library)
    {
      RowIsReleasable(w, t, kept, remaining, removed, i, library);
    }
    hide RowReleasable;
  }

  lemma RowIsReleasable(w: World, t: TargetKey, kept: seq<Row>, remaining: bool, removed: seq<Row>, i: nat,
                        library: set<Name>)
    requires Receipts(w.registry, t, kept, remaining, removed) && i < |removed|
    ensures RowReleasable(w.registry, AdapterAt(w, removed[i].path), t, removed[i], library)
            <==> Leavable(w, t, kept, remaining, removed[i], library)
  {
    var r, row := w.registry, removed[i];
    var p, a, rest := row.path, AdapterAt(w, row.path), Excluding(r, Some(t));
    assert Claimed(removed, p) by {
      assert Claims(removed[i], p);
    }
    KeptRepo(r, t, kept, remaining, removed, p);
    OwnersAtUnion(r.owners, p);
    Somebody(r.owners, p);
    OtherModes(r, t, row);
    assert OwnersFit(r.owners, p, row.mode) <==> forall o :: At(r.owners, o, p) ==> r.owners[o].mode == row.mode by {
      assert forall o :: At(r.owners, o, p) <==> o in r.owners && p in r.owners[o].paths;
    }
    hide AdapterAt, SomebodyAt, Claimed, Keeps, WellPaired, DetachTarget, RepoUnion, RepoFits, OwnersUnion, Union,
      Collides, Receipts, Open;
    if LeftNames(r, t, row).Some? {
      CollidesMeans(a, LeftNames(r, t, row).value);
      assert LeftNames(r, t, row).value == UnionAt(DetachTarget(r, t, kept, remaining), p);
    }
  }

  lemma OtherModes(r: Registry, t: TargetKey, row: Row)
    ensures RepoFits(Excluding(r, Some(t)), row.path, row.mode) <==>
              forall u, i ::
                u in r.targets && u != t && 0 <= i < |r.targets[u].rows| && Claims(r.targets[u].rows[i], row.path) ==>
                  r.targets[u].rows[i].mode == row.mode
  {
    var rest := Excluding(r, Some(t)).targets;
    assert forall u :: u in rest <==> u in r.targets && u != t;
    assert forall u :: u in rest ==> rest[u] == r.targets[u];
  }

  // ----- whole runs -----

  datatype Move =
    | Attach(target: TargetKey, current: set<PackageId>, rows: seq<Row>, available: set<Name>)
    | Detach(gone: set<OwnerKey>)
    | Release(target: TargetKey, kept: seq<Row>, remaining: bool, removed: seq<Row>)

  /** One completed operation. */
  ghost predicate Moves(w: World, move: Move, later: World, library: set<Name>) {
    match move
    case Detach(gone) => DetachReady(w, gone, library) && later == Detached(w, gone, library)
    case Attach(t, current, rows, available) =>
      AttachReady(w, t, rows, available, library) && Attached(w, t, current, rows, available, later)
    case Release(t, kept, remaining, removed) =>
      ReleaseReady(w, t, kept, remaining, removed, library) && LeftBehind(w, t, kept, remaining, removed, later)
  }

  /** An installation gives up only what is still wanted and leaves nothing managed unwanted; a target's detach
      clears only what is nobody else's, completely. */
  ghost predicate Harmless(w: World, move: Move) {
    match move
    case Attach(t, current, rows, available) =>
      && (forall p {:trigger CoveredAt(w.registry, t, current, rows, available, p)} ::
            CoveredAt(w.registry, t, current, rows, available, p))
      && NoStrays(w, t, rows)
    case Release(t, _, _, removed) => AllClearedWhole(w, t, removed)
    case Detach(_) => true
  }

  lemma MoveKeepsAgreement(w: World, move: Move, later: World, library: set<Name>)
    requires PersonalAdapters.Inv(w) && Moves(w, move, later, library)
    ensures PersonalAdapters.Inv(later) <==> Harmless(w, move)
  {
    hide PersonalAdapters.Inv, AttachReady, Attached, NoStrays, CoveredAt, DetachReady, Detached, ReleaseReady,
      LeftBehind, AllClearedWhole;
    match move
    case Detach(gone) => DetachKeepsAgreement(w, gone, library);
    case Attach(t, current, rows, available) => AttachKeepsAgreement(w, t, current, rows, available, library, later);
    case Release(t, kept, remaining, removed) => ReleaseKeepsAgreement(w, t, kept, remaining, removed, library, later);
  }

  // ----- what stands in the directories -----

  /** Every package the marker names stands in the directory in the marker's own form. */
  ghost predicate InForm(a: Adapter) {
    a.marker.Some? ==> Formed(a, a.marker.value.packages, a.marker.value.mode)
  }

  ghost predicate AllInForm(w: World) { forall p {:trigger AdapterAt(w, p)} :: InForm(AdapterAt(w, p)) }

  lemma WrittenInForm(a: Adapter, names: set<Name>, mode: Mode)
    ensures InForm(Written(a, names, mode)) && Written(a, names, mode).marker == Some(Marker(names, mode))
    ensures InForm(Scoped(a, names, mode)) && Scoped(a, names, mode).marker == Some(Marker(names, mode))
  {
    WrittenForms(a, names, mode);
    ScopedForms(a, names, mode);
  }

  /** An installation leaves every row's directory marked in the row's mode, with the marked packages in that form. */
  ghost predicate RowsInForm(rows: seq<Row>, later: World) {
    forall i {:trigger rows[i]} :: 0 <= i < |rows| ==>
      var a := AdapterAt(later, rows[i].path);
      a.marker.Some? && a.marker.value.mode == rows[i].mode && Formed(a, a.marker.value.packages, rows[i].mode)
  }

  lemma AttachedForms(w: World, t: TargetKey, current: set<PackageId>, rows: seq<Row>, available: set<Name>,
                      library: set<Name>, later: World)
    requires AttachReady(w, t, rows, available, library) && Attached(w, t, current, rows, available, later)
    ensures RowsInForm(rows, later)
  {
    hide RowNames, Written, Scoped, Gather, Saved, Formed, AdapterAt, Taken, Collides;
    forall i {:trigger rows[i]} | 0 <= i < |rows|
      ensures var a := AdapterAt(later, rows[i].path);
              && a.marker.Some? && a.marker.value.mode == rows[i].mode
              && Formed(a, a.marker.value.packages, rows[i].mode)
    {
      var row, a := rows[i], AdapterAt(w, rows[i].path);
      var j := if !row.PersonalRow? && PersonalAt(rows, row.path) then
                 var j :| 0 <= j < |rows| && rows[j].PersonalRow? && rows[j].path == row.path; j
               else i;
      assert rows[j].path == row.path && rows[j].mode == row.mode;
      assert RowWritten(w, t, rows, rows[j], later) && RowReady(w.registry, a, t, rows, rows[j], library);
      if Shares(w.registry.owners, rows, rows[j]) {
        WrittenInForm(a, RowNames(w.registry, t, rows, rows[j]).value, row.mode);
      } else {
        WrittenInForm(a, row.packages, row.mode);
      }
    }
  }

  lemma DetachedForm(w: World, gone: set<OwnerKey>, library: set<Name>, p: Path)
    requires DetachReady(w, gone, library) && InForm(AdapterAt(w, p))
    ensures InForm(AdapterAt(Detached(w, gone, library), p))
  {
    hide Written, Remaining, ModeAt, Formed;
    DetachedAt(w, gone, library, p);
    if p in PathsOfOwners(w.registry.owners, gone) {
      var mode := ModeAt(w.registry.owners, gone, p);
      assert mode.Some? by {
        RemainingHasMode(w.registry, gone, p);
      }
      WrittenInForm(AdapterAt(w, p), Remaining(w.registry, gone, p).value, mode.value);
    }
  }

  lemma RemainingHasMode(r: Registry, gone: set<OwnerKey>, p: Path)
    ensures Remaining(r, gone, p).Some? ==> ModeAt(r.owners, gone, p).Some?
  {
    hide ModeAt, Selection;
  }

  lemma ReleasedForm(w: World, t: TargetKey, removed: seq<Row>, later: World, library: set<Name>, p: Path)
    requires Claimed(removed, p)
    requires forall i {:trigger removed[i]} :: 0 <= i < |removed| ==>
               && RowReleasable(w.registry, AdapterAt(w, removed[i].path), t, removed[i], library)
               && RowLeft(w, t, removed[i], later)
    ensures InForm(AdapterAt(later, p))
  {
    hide LeftNames, Written, Cleared, Formed, AdapterAt, SomebodyAt, Collides;
    var i :| 0 <= i < |removed| && Claims(removed[i], p);
    var row, a := removed[i], AdapterAt(w, p);
    assert RowReleasable(w.registry, a, t, row, library) && RowLeft(w, t, row, later);
    if SomebodyAt(w.registry.owners, p) {
      WrittenInForm(a, LeftNames(w.registry, t, row).value, row.mode);
    } else {
      ClearedAgrees(a, row.packages);
    }
  }

  /** Every operation leaves what the markers name in the markers' form. */
  lemma MoveKeepsForms(w: World, move: Move, later: World, library: set<Name>)
    requires AllInForm(w) && Moves(w, move, later, library)
    ensures AllInForm(later)
  {
    hide RowNames, LeftNames, Written, Cleared, Formed, AdapterAt, AttachReady, Receipts, RowReleasable, RowWritten,
      Saved, Detached, DetachReady, SomebodyAt;
    forall p {:trigger AdapterAt(later, p)}
      ensures InForm(AdapterAt(later, p))
    {
      assert InForm(AdapterAt(w, p));
      match move
      case Detach(gone) => DetachedForm(w, gone, library, p);
      case Attach(t, current, rows, available) =>
        AttachedForms(w, t, current, rows, available, library, later);
        if PersonalAt(rows, p) || Claimed(rows, p) {
          var i :| 0 <= i < |rows| && rows[i].path == p;
          assert InForm(AdapterAt(later, rows[i].path));
        }
      case Release(t, kept, remaining, removed) =>
        if Claimed(removed, p) {
          ReleasedForm(w, t, removed, later, library, p);
        }
    }
  }

  ghost predicate Run(worlds: seq<World>, moves: seq<Move>, library: set<Name>) {
    && |worlds| == |moves| + 1 && PersonalAdapters.Inv(worlds[0])
    && forall k {:trigger moves[k]} :: 0 <= k < |moves| ==> Moves(worlds[k], moves[k], worlds[k + 1], library)
  }

  ghost predicate AlwaysAgree(worlds: seq<World>) {
    forall k :: 0 <= k < |worlds| ==> PersonalAdapters.Inv(worlds[k])
  }

  ghost predicate AlwaysHarmless(worlds: seq<World>, moves: seq<Move>)
    requires |worlds| == |moves| + 1
  {
    forall k {:trigger moves[k]} :: 0 <= k < |moves| ==> Harmless(worlds[k], moves[k])
  }

  /**
   * Over any run of installations, personal detaches and target detaches, every
   * marker, directory and union of owners agree throughout exactly when every
   * operation was harmless.
   */
  lemma RunKeepsAgreement(worlds: seq<World>, moves: seq<Move>, library: set<Name>)
    requires Run(worlds, moves, library)
    ensures AlwaysAgree(worlds) <==> AlwaysHarmless(worlds, moves)
  {
    hide PersonalAdapters.Inv, Moves, Harmless;
    if AlwaysAgree(worlds) {
      forall k {:trigger moves[k]} | 0 <= k < |moves|
        ensures Harmless(worlds[k], moves[k])
      {
        assert Moves(worlds[k], moves[k], worlds[k + 1], library);
        MoveKeepsAgreement(worlds[k], moves[k], worlds[k + 1], library);
      }
    }
    if AlwaysHarmless(worlds, moves) {
      forall k | 0 <= k < |worlds|
        ensures PersonalAdapters.Inv(worlds[k])
      {
        HarmlessRun(worlds, moves, library, k);
      }
    }
  }

  lemma {:induction false} HarmlessRun(worlds: seq<World>, moves: seq<Move>, library: set<Name>, k: nat)
    requires Run(worlds, moves, library) && AlwaysHarmless(worlds, moves) && k <= |moves|
    ensures PersonalAdapters.Inv(worlds[k])
  {
    hide PersonalAdapters.Inv, Moves, Harmless;
    if k > 0 {
      HarmlessRun(worlds, moves, library, k - 1);
      assert Moves(worlds[k - 1], moves[k - 1], worlds[k], library);
      MoveKeepsAgreement(worlds[k - 1], moves[k - 1], worlds[k], library);
    }
  }

  // ----- what the tool did not make -----

  lemma ScopedSpares(a: Adapter, names: set<Name>, mode: Mode)
    requires !Taken(a, names)
    ensures SparesForeignIn(a, Scoped(a, names, mode))
  {
    forall n | n in a.entries && Foreign(a.entries[n])
      ensures Lookup(Scoped(a, names, mode).entries, n) == Lookup(a.entries, n)
    {
      ScopedKeepsOthers(a, names, mode, n);
    }
  }

  lemma ClearedSpares(a: Adapter, recorded: set<Name>)
    ensures SparesForeignIn(a, Cleared(a, recorded))
  {
    forall n | n in a.entries && Foreign(a.entries[n])
      ensures Lookup(Cleared(a, recorded).entries, n) == Lookup(a.entries, n)
    {
      ClearedExact(a, recorded, n);
    }
  }

  lemma AttachSparesForeign(w: World, t: TargetKey, current: set<PackageId>, rows: seq<Row>, available: set<Name>,
                            library: set<Name>, later: World)
    requires AttachReady(w, t, rows, available, library) && Attached(w, t, current, rows, available, later)
    ensures SparesForeign(w, later)
  {
    hide RowNames, Written, Scoped, Gather, Saved, AdapterAt, Taken, Collides, Foreign;
    forall p {:trigger AdapterAt(later, p)}
      ensures SparesForeignIn(AdapterAt(w, p), AdapterAt(later, p))
    {
      if PersonalAt(rows, p) || Claimed(rows, p) {
        var i :| 0 <= i < |rows| && rows[i].path == p && WritesAt(w.registry.owners, rows, rows[i]);
        assert RowWritten(w, t, rows, rows[i], later);
        assert RowReady(w.registry, AdapterAt(w, p), t, rows, rows[i], library);
        RowSpares(w, t, rows, rows[i], library, later);
      }
    }
  }

  lemma RowSpares(w: World, t: TargetKey, rows: seq<Row>, row: Row, library: set<Name>, later: World)
    requires RowReady(w.registry, AdapterAt(w, row.path), t, rows, row, library) && RowWritten(w, t, rows, row, later)
    requires WritesAt(w.registry.owners, rows, row)
    ensures SparesForeignIn(AdapterAt(w, row.path), AdapterAt(later, row.path))
  {
    hide RowNames, Written, Scoped, AdapterAt, Taken, Collides, Foreign, PersonalAt, SomebodyAt;
    if Shares(w.registry.owners, rows, row) {
      WrittenSpares(AdapterAt(w, row.path), RowNames(w.registry, t, rows, row).value, row.mode);
    } else {
      ScopedSpares(AdapterAt(w, row.path), row.packages, row.mode);
    }
  }

  lemma ReleaseSparesForeign(w: World, t: TargetKey, kept: seq<Row>, remaining: bool, removed: seq<Row>,
                             library: set<Name>, later: World)
    requires ReleaseReady(w, t, kept, remaining, removed, library)
    requires LeftBehind(w, t, kept, remaining, removed, later)
    ensures SparesForeign(w, later)
  {
    hide LeftNames, Written, Cleared, AdapterAt, SomebodyAt, Collides, Foreign, Receipts, DetachTarget;
    forall p {:trigger AdapterAt(later, p)}
      ensures SparesForeignIn(AdapterAt(w, p), AdapterAt(later, p))
    {
      if Claimed(removed, p) {
        var i :| 0 <= i < |removed| && Claims(removed[i], p);
        var row, a := removed[i], AdapterAt(w, removed[i].path);
        assert RowReleasable(w.registry, a, t, row, library) && RowLeft(w, t, row, later);
        if SomebodyAt(w.registry.owners, row.path) {
          WrittenSpares(a, LeftNames(w.registry, t, row).value, row.mode);
        } else {
          ClearedSpares(a, row.packages);
        }
      }
    }
  }

  /** No operation touches an entry the tool did not make. */
  lemma MoveSparesForeign(w: World, move: Move, later: World, library: set<Name>)
    requires Moves(w, move, later, library)
    ensures SparesForeign(w, later)
  {
    hide AttachReady, Attached, DetachReady, Detached, ReleaseReady, LeftBehind, SparesForeign;
    match move
    case Detach(gone) => DetachSparesForeign(w, gone, library);
    case Attach(t, current, rows, available) => AttachSparesForeign(w, t, current, rows, available, library, later);
    case Release(t, kept, remaining, removed) =>
      ReleaseSparesForeign(w, t, kept, remaining, removed, library, later);
  }

  /** Over any run whatever else stands in a directory, a file, a foreign link or an unmarked copy, stays as it is. */
  lemma {:induction false} RunSparesForeign(worlds: seq<World>, moves: seq<Move>, library: set<Name>, i: nat, k: nat)
    requires Run(worlds, moves, library) && i <= k <= |moves|
    ensures SparesForeign(worlds[i], worlds[k])
    decreases k
  {
    hide PersonalAdapters.Inv, Moves, Foreign;
    if k > i {
      RunSparesForeign(worlds, moves, library, i, k - 1);
      assert Moves(worlds[k - 1], moves[k - 1], worlds[k], library);
      MoveSparesForeign(worlds[k - 1], moves[k - 1], worlds[k], library);
      forall p {:trigger AdapterAt(worlds[k], p)}
        ensures SparesForeignIn(AdapterAt(worlds[i], p), AdapterAt(worlds[k], p))
      {
        assert SparesForeignIn(AdapterAt(worlds[i], p), AdapterAt(worlds[k - 1], p));
        assert SparesForeignIn(AdapterAt(worlds[k - 1], p), AdapterAt(worlds[k], p));
      }
    }
  }

  lemma {:induction false} RunKeepsForms(worlds: seq<World>, moves: seq<Move>, library: set<Name>, k: nat)
    requires Run(worlds, moves, library) && AllInForm(worlds[0]) && k <= |moves|
    ensures AllInForm(worlds[k])
  {
    hide PersonalAdapters.Inv, Moves, AllInForm;
    if k > 0 {
      RunKeepsForms(worlds, moves, library, k - 1);
      assert Moves(worlds[k - 1], moves[k - 1], worlds[k], library);
      MoveKeepsForms(worlds[k - 1], moves[k - 1], worlds[k], library);
    }
  }

  /** The package stands in the directory as a copy the tool made, or as a link to the library. */
  ghost predicate Stands(w: World, p: Path, n: Name, mode: Mode) {
    && n in AdapterAt(w, p).entries
    && (mode == Portable ==> AdapterAt(w, p).entries[n] == Copy(true))
    && (mode == Symlink ==> AdapterAt(w, p).entries[n] == Link)
  }

  /**
   * Over any run of harmless operations every recorded owner finds each of its
   * packages in each of its directories, and every repository row its own, as a
   * managed copy or as a link, as the record says.
   */
  lemma EverybodyIsServed(worlds: seq<World>, moves: seq<Move>, library: set<Name>, k: nat)
    requires Run(worlds, moves, library) && AlwaysHarmless(worlds, moves) && AllInForm(worlds[0]) && k <= |moves|
    ensures forall o, p, n :: At(worlds[k].registry.owners, o, p) && n in worlds[k].registry.owners[o].packages ==>
              Stands(worlds[k], p, n, worlds[k].registry.owners[o].mode)
    ensures forall t, i, n :: t in worlds[k].registry.targets && 0 <= i < |worlds[k].registry.targets[t].rows| ==>
              var row := worlds[k].registry.targets[t].rows[i];
              row.RepoRow? && n in row.packages ==> Stands(worlds[k], row.path, n, row.mode)
  {
    HarmlessRun(worlds, moves, library, k);
    RunKeepsForms(worlds, moves, library, k);
    ServedIn(worlds[k]);
  }

  lemma ServedIn(w: World)
    requires PersonalAdapters.Inv(w) && AllInForm(w)
    ensures forall o, p, n :: At(w.registry.owners, o, p) && n in w.registry.owners[o].packages ==>
              Stands(w, p, n, w.registry.owners[o].mode)
    ensures forall t, i, n :: t in w.registry.targets && 0 <= i < |w.registry.targets[t].rows| ==>
              var row := w.registry.targets[t].rows[i];
              row.RepoRow? && n in row.packages ==> Stands(w, row.path, n, row.mode)
  {
    forall o, p, n | At(w.registry.owners, o, p) && n in w.registry.owners[o].packages
      ensures Stands(w, p, n, w.registry.owners[o].mode)
    {
      assert InvAt(w, p) && InForm(AdapterAt(w, p));
      assert n in OwnersUnion(w.registry.owners, p);
    }
    forall t, i, n |
      t in w.registry.targets && 0 <= i < |w.registry.targets[t].rows|
      && w.registry.targets[t].rows[i].RepoRow? && n in w.registry.targets[t].rows[i].packages
      ensures var row := w.registry.targets[t].rows[i]; Stands(w, row.path, n, row.mode)
    {
      RowServed(w, t, i, n);
    }
  }

  lemma RowServed(w: World, t: TargetKey, i: nat, n: Name)
    requires t in w.registry.targets && i < |w.registry.targets[t].rows|
    requires w.registry.targets[t].rows[i].RepoRow? && n in w.registry.targets[t].rows[i].packages
    requires InvAt(w, w.registry.targets[t].rows[i].path) && InForm(AdapterAt(w, w.registry.targets[t].rows[i].path))
    ensures var row := w.registry.targets[t].rows[i]; Stands(w, row.path, n, row.mode)
  {
    var rows := w.registry.targets[t].rows;
    var p := rows[i].path;
    assert Claims(rows[i], p);
    assert n in RowsUnion(rows, p);
    assert n in RepoUnion(w.registry, p);
    assert n in Marked(AdapterAt(w, p));
    assert RowsFit(rows, p, AdapterAt(w, p).marker.value.mode);
  }

  // ----- three runs that break agreement -----

  /** One owner's row for one package. */
  function SkillRow(p: Path, o: OwnerKey, mode: Mode): Row { PersonalRow(p, mode, {o}, {"skill"}, None, map[]) }

  function SkillRecord(paths: set<Path>, mode: Mode): OwnerRecord { OwnerRecord({"skill"}, map[], paths, mode) }

  lemma SkillAdds(selected: map<OwnerKey, OwnerRecord>, p: Path, o: OwnerKey, mode: Mode, paths: set<Path>)
    requires selected == if paths == {} then map[] else map[o := SkillRecord(paths, mode)]
    ensures AddRow(selected, SkillRow(p, o, mode), {"skill"}) == Some(map[o := SkillRecord(paths + {p}, mode)])
  {
    var row, names := SkillRow(p, o, mode), map[o := {"skill"}];
    assert PersonalSelections(row).value == names;
    assert MergeBindings(map[], map[]) == Some(map[]);
    var record := SkillRecord(paths + {p}, mode);
    var extended := PackageRegistries.Extend(Lookup(selected, o), row, {"skill"});
    assert extended.Some? && extended.value.bindings == map[] && extended.value.paths == paths + {p};
    assert extended == Some(record);
    hide PackageRegistries.Extend, MergeBindings, PersonalSelections;
    assert (map k | k in names :: PackageRegistries.Extend(Lookup(selected, k), row, names[k]).value)
           == map[o := record];
    assert selected + map[o := record] == map[o := record];
  }

  lemma OneRowGathers(p: Path, o: OwnerKey, mode: Mode)
    ensures Gather([SkillRow(p, o, mode)], {"skill"}) == Some(map[o := SkillRecord({p}, mode)])
  {
    var rows := [SkillRow(p, o, mode)];
    SkillAdds(map[], p, o, mode, {});
    hide AddRow;
    assert rows[..0] == [] && Gather(rows[..0], {"skill"}) == Some(map[]);
    assert {} + {p} == {p};
  }

  lemma TwoRowsGather(p: Path, q: Path, o: OwnerKey, mode: Mode)
    ensures Gather([SkillRow(p, o, mode), SkillRow(q, o, mode)], {"skill"}) == Some(map[o := SkillRecord({p, q}, mode)])
  {
    var rows := [SkillRow(p, o, mode), SkillRow(q, o, mode)];
    OneRowGathers(p, o, mode);
    SkillAdds(map[o := SkillRecord({p}, mode)], q, o, mode, {p});
    hide AddRow;
    assert rows[..1] == [SkillRow(p, o, mode)];
    assert {p} + {q} == {p, q};
  }

  /** A registry that knows nobody but `o`, and no repository row. */
  ghost predicate OnlyOwner(r: Registry, o: OwnerKey) {
    r.owners.Keys <= {o} && forall t, p :: t in r.targets ==> !Claimed(r.targets[t].rows, p)
  }

  lemma OnlyOwnerNames(r: Registry, t: TargetKey, rows: seq<Row>, p: Path, o: OwnerKey, mode: Mode)
    requires OnlyOwner(r, o) && forall i :: 0 <= i < |rows| ==> rows[i].PersonalRow?
    ensures RowNames(r, t, rows, SkillRow(p, o, mode)) == Some({"skill"})
    ensures UnionAt(r, p) == OwnersUnion(r.owners, p)
  {
    var row := SkillRow(p, o, mode);
    assert PersonalSelections(row).value == map[o := {"skill"}];
    assert Union(map[o := {"skill"}]) == {"skill"} by {
      assert o in map[o := {"skill"}] && "skill" in map[o := {"skill"}][o];
    }
    assert !Claimed(rows, p);
    assert r.owners - {o} == map[];
    forall t | t in r.targets
      ensures RowsUnion(r.targets[t].rows, p) == {} && RowsFit(r.targets[t].rows, p, mode)
    {
      Unclaimed(r.targets[t].rows, p);
    }
    hide RowsUnion, RowsFit;
    Unclaimed(rows, p);
    assert RepoUnion(r, p) == {} && OwnersUnion(map[], p) == {};
    assert {"skill"} + {} + {} + {} == {"skill"};
  }

  lemma SavedOnlyOwner(r: Registry, t: TargetKey, rows: seq<Row>, o: OwnerKey, record: OwnerRecord)
    requires OnlyOwner(r, o) && Gather(rows, {"skill"}) == Some(map[o := record])
    requires forall i :: 0 <= i < |rows| ==> rows[i].PersonalRow?
    ensures var later := Saved(r, t, {"skill"}, rows, {"skill"});
            OnlyOwner(later, o) && later.owners == map[o := record]
  {
    hide Gather, Apply;
    SavedOwners(r, t, {"skill"}, rows, {"skill"});
    assert r.owners + map[o := record] == map[o := record];
  }

  /** The world after one owner's rows were written over free or already managed names. */
  lemma SkillAttached(w: World, t: TargetKey, rows: seq<Row>, o: OwnerKey, mode: Mode, record: OwnerRecord)
    returns (later: World)
    requires OnlyOwner(w.registry, o) && WellPaired(rows) && Gather(rows, {"skill"}) == Some(map[o := record])
    requires forall i {:trigger rows[i]} :: 0 <= i < |rows| ==>
               rows[i] == SkillRow(rows[i].path, o, mode) && !Collides(AdapterAt(w, rows[i].path), {"skill"})
    ensures Moves(w, Attach(t, {"skill"}, rows, {"skill"}), later, {"skill"})
    ensures later.registry.owners == map[o := record] && OnlyOwner(later.registry, o)
    ensures forall i {:trigger rows[i]} :: 0 <= i < |rows| ==>
              AdapterAt(later, rows[i].path) == Written(AdapterAt(w, rows[i].path), {"skill"}, mode)
    ensures forall p :: !PersonalAt(rows, p) ==> AdapterAt(later, p) == AdapterAt(w, p)
  {
    var book := Saved(w.registry, t, {"skill"}, rows, {"skill"});
    SavedOnlyOwner(w.registry, t, rows, o, record);
    later := SkillWorld(w, book, rows, mode);
    SkillWorldAt(w, book, rows, mode);
    hide Written, Apply, Gather, OnlyOwner, Collides, RowNames, Saved, AdapterAt, SkillWorld, Moves, PersonalAt;
    forall i {:trigger rows[i]} | 0 <= i < |rows|
      ensures RowNames(w.registry, t, rows, rows[i]) == Some({"skill"})
    {
      OnlyOwnerNames(w.registry, t, rows, rows[i].path, o, mode);
    }
    SkillMoves(w, t, rows, o, mode, later);
  }

  /** The rows' directories written over `w`, beside the saved registry `book`. */
  function SkillWorld(w: World, book: Registry, rows: seq<Row>, mode: Mode): World {
    var paths := set i | 0 <= i < |rows| :: rows[i].path;
    World(book, map p | p in w.adapters.Keys + paths ::
                  if p in paths then Written(AdapterAt(w, p), {"skill"}, mode) else w.adapters[p])
  }

  lemma SkillWorldAt(w: World, book: Registry, rows: seq<Row>, mode: Mode)
    requires forall i :: 0 <= i < |rows| ==> rows[i].PersonalRow?
    ensures forall i {:trigger rows[i]} :: 0 <= i < |rows| ==>
              AdapterAt(SkillWorld(w, book, rows, mode), rows[i].path)
              == Written(AdapterAt(w, rows[i].path), {"skill"}, mode)
    ensures forall p :: !PersonalAt(rows, p) ==> AdapterAt(SkillWorld(w, book, rows, mode), p) == AdapterAt(w, p)
    ensures SkillWorld(w, book, rows, mode).registry == book
  {
    hide Written;
  }

  lemma SkillMoves(w: World, t: TargetKey, rows: seq<Row>, o: OwnerKey, mode: Mode, later: World)
    requires WellPaired(rows) && Gather(rows, {"skill"}).Some?
    requires later.registry == Saved(w.registry, t, {"skill"}, rows, {"skill"})
    requires forall i {:trigger rows[i]} :: 0 <= i < |rows| ==>
               && rows[i].PersonalRow? && !Collides(AdapterAt(w, rows[i].path), {"skill"})
               && RowNames(w.registry, t, rows, rows[i]) == Some({"skill"}) && rows[i].mode == mode
               && AdapterAt(later, rows[i].path) == Written(AdapterAt(w, rows[i].path), {"skill"}, mode)
    requires forall p :: !PersonalAt(rows, p) ==> AdapterAt(later, p) == AdapterAt(w, p)
    ensures Moves(w, Attach(t, {"skill"}, rows, {"skill"}), later, {"skill"})
  {
    hide Written, Gather, Collides, RowNames, Saved, AdapterAt, WellPaired, InvAt;
    assert forall p :: !Claimed(rows, p);
  }

  /**
   * An owner recorded again at fewer paths, with nobody else there: two
   * installations leave the old directory exposing what nobody selects.
   */
  lemma FewerPathsLeaveStale(t: TargetKey, o: OwnerKey, p: Path, q: Path) returns (worlds: seq<World>)
    requires p != q
    ensures var first := Attach(t, {"skill"}, [SkillRow(p, o, Symlink), SkillRow(q, o, Symlink)], {"skill"});
            Run(worlds, [first, Attach(t, {"skill"}, [SkillRow(p, o, Symlink)], {"skill"})], {"skill"})
    ensures "skill" in Marked(AdapterAt(worlds[2], q)) && "skill" !in UnionAt(worlds[2].registry, q)
  {
    hide Gather, Moves, PersonalAdapters.Inv, AdapterAt, OwnersUnion, Written, Collides, OnlyOwner, Run, UnionAt,
      Marked, WellPaired, PersonalAt;
    var w, both, one := Fresh(map[]), [SkillRow(p, o, Symlink), SkillRow(q, o, Symlink)], [SkillRow(p, o, Symlink)];
    NothingAgrees(w);
    SkillPairs(p, q, o);
    TwoRowsGather(p, q, o, Symlink);
    OneRowGathers(p, o, Symlink);
    FreeNames(w, both);
    FreshOnlyOwner(w.registry, o);
    var w1 := SkillAttached(w, t, both, o, Symlink, SkillRecord({p, q}, Symlink));
    assert both[0].path == p && both[1].path == q;
    WrittenIsFree(AdapterAt(w, p), {"skill"}, Symlink);
    var w2 := SkillAttached(w1, t, one, o, Symlink, SkillRecord({p}, Symlink));
    worlds := [w, w1, w2];
    TwoMoves(w, w1, w2, Attach(t, {"skill"}, both, {"skill"}), Attach(t, {"skill"}, one, {"skill"}), {"skill"});
    StaleAt(w, w1, w2, t, o, p, q);
  }

  /** Nobody recorded anywhere. */
  function Fresh(adapters: map<Path, Adapter>): World { World(Registry(map[], map[], map[]), adapters) }

  lemma SkillPairs(p: Path, q: Path, o: OwnerKey)
    requires p != q
    ensures WellPaired([SkillRow(p, o, Symlink), SkillRow(q, o, Symlink)]) && WellPaired([SkillRow(p, o, Symlink)])
  {
  }

  lemma TwoMoves(w: World, w1: World, w2: World, first: Move, second: Move, library: set<Name>)
    requires PersonalAdapters.Inv(w) && Moves(w, first, w1, library) && Moves(w1, second, w2, library)
    ensures Run([w, w1, w2], [first, second], library)
  {
    hide PersonalAdapters.Inv, Moves;
  }

  lemma FreeNames(w: World, rows: seq<Row>)
    requires w.adapters == map[]
    ensures forall i {:trigger rows[i]} :: 0 <= i < |rows| ==> !Collides(AdapterAt(w, rows[i].path), {"skill"})
  {
  }

  lemma FreshOnlyOwner(r: Registry, o: OwnerKey)
    requires r == Registry(map[], map[], map[])
    ensures OnlyOwner(r, o)
  {
  }

  lemma WrittenIsFree(a: Adapter, names: set<Name>, mode: Mode)
    ensures !Collides(Written(a, names, mode), names) && Marked(Written(a, names, mode)) == names
  {
  }

  lemma StaleAt(w: World, w1: World, w2: World, t: TargetKey, o: OwnerKey, p: Path, q: Path)
    requires p != q && OnlyOwner(w2.registry, o) && w2.registry.owners == map[o := SkillRecord({p}, Symlink)]
    requires AdapterAt(w1, q) == Written(AdapterAt(w, q), {"skill"}, Symlink)
    requires forall u :: !PersonalAt([SkillRow(p, o, Symlink)], u) ==> AdapterAt(w2, u) == AdapterAt(w1, u)
    ensures "skill" in Marked(AdapterAt(w2, q)) && "skill" !in UnionAt(w2.registry, q)
  {
    OnlyOwnerNames(w2.registry, t, [], q, o, Symlink);
    WrittenIsFree(AdapterAt(w, q), {"skill"}, Symlink);
    hide OnlyOwner, Written, AdapterAt;
    assert !PersonalAt([SkillRow(p, o, Symlink)], q);
  }

  /** An empty registry over directories without markers, links or packages is in agreement. */
  lemma NothingAgrees(w: World)
    requires w.registry == Registry(map[], map[], map[])
    requires forall p :: p in w.adapters ==>
               w.adapters[p].marker.None? && forall n :: n in w.adapters[p].entries ==> !w.adapters[p].entries[n].Link?
    ensures PersonalAdapters.Inv(w)
  {
    forall p
      ensures InvAt(w, p)
    {
      assert AdapterAt(w, p).marker.None?;
      assert UnionAt(w.registry, p) == {};
    }
  }

  /**
   * A package copy somebody put into a directory by hand: one installation of
   * portable copies turns it managed, though nobody selects it.
   */
  lemma HandMadeCopyTurnsManaged(t: TargetKey, o: OwnerKey, p: Path) returns (worlds: seq<World>)
    ensures Run(worlds, [Attach(t, {"skill"}, [SkillRow(p, o, Portable)], {"skill"})], {"skill"})
    ensures !Managed(AdapterAt(worlds[0], p), "mine") && Managed(AdapterAt(worlds[1], p), "mine")
    ensures "mine" !in UnionAt(worlds[1].registry, p)
  {
    hide Gather, Moves, PersonalAdapters.Inv, OnlyOwner, Run, UnionAt, WellPaired, PersonalAt, Written, Collides;
    var a, rows := Adapter(map["mine" := Copy(true)], None), [SkillRow(p, o, Portable)];
    var w := Fresh(map[p := a]);
    NothingAgrees(w);
    assert WellPaired(rows) by {
      OnePair(p, o);
    }
    OneRowGathers(p, o, Portable);
    FreshOnlyOwner(w.registry, o);
    CopyJoins(a);
    var w1 := SkillAttached(w, t, rows, o, Portable, SkillRecord({p}, Portable));
    assert rows[0].path == p;
    worlds := [w, w1];
    OneMove(w, w1, Attach(t, {"skill"}, rows, {"skill"}), {"skill"});
    NotSelected(w1.registry, t, o, p);
  }

  lemma OnePair(p: Path, o: OwnerKey)
    ensures WellPaired([SkillRow(p, o, Portable)])
  {
  }

  lemma CopyJoins(a: Adapter)
    requires a == Adapter(map["mine" := Copy(true)], None)
    ensures !Collides(a, {"skill"}) && !Managed(a, "mine") && Managed(Written(a, {"skill"}, Portable), "mine")
  {
    assert "mine"[0] != "skill"[0];
  }

  lemma OneMove(w: World, later: World, move: Move, library: set<Name>)
    requires PersonalAdapters.Inv(w) && Moves(w, move, later, library)
    ensures Run([w, later], [move], library)
  {
    hide PersonalAdapters.Inv, Moves;
  }

  lemma NotSelected(r: Registry, t: TargetKey, o: OwnerKey, p: Path)
    requires OnlyOwner(r, o) && r.owners == map[o := SkillRecord({p}, Portable)]
    ensures "mine" !in UnionAt(r, p)
  {
    OnlyOwnerNames(r, t, [], p, o, Portable);
    hide OnlyOwner;
    assert "mine"[0] != "skill"[0];
  }

  /** A repository's own row over nobody's directory. */
  lemma OwnMove(w: World, t: TargetKey, row: Row, library: set<Name>) returns (later: World)
    requires w.registry.owners == map[] && row.RepoRow?
    requires row.packages <= library && !Taken(AdapterAt(w, row.path), row.packages)
    ensures Moves(w, Attach(t, {}, [row], {}), later, library) && later.registry.owners == map[]
    ensures AdapterAt(later, row.path) == Scoped(AdapterAt(w, row.path), row.packages, row.mode)
    ensures t in later.registry.targets && later.registry.targets[t].rows == [row]
    ensures later.registry.targets.Keys == w.registry.targets.Keys + {t}
  {
    var rows := [row];
    RowGathers(row);
    SavedOwners(w.registry, t, {}, rows, {});
    hide Apply, Gather, Scoped, Taken, RowNames;
    later := World(Saved(w.registry, t, {}, rows, {}),
                   w.adapters[row.path := Scoped(AdapterAt(w, row.path), row.packages, row.mode)]);
    assert Own(w.registry.owners, rows, row) && !Shares(w.registry.owners, rows, row);
    assert forall p :: p != row.path ==> AdapterAt(later, p) == AdapterAt(w, p);
    assert Claimed(rows, row.path) by {
      assert Claims(rows[0], row.path);
    }
  }

  lemma RowGathers(row: Row)
    requires row.RepoRow?
    ensures Gather([row], {}) == Some(map[])
  {
    assert [row][..0] == [] && Gather([row][..0], {}) == Some(map[]);
  }

  /**
   * A repository changes its own directory from links to copies and drops a
   * package: the dropped package's link stays, and counts as managed.
   */
  lemma ModeSwitchLeavesLink(t: TargetKey, p: Path) returns (worlds: seq<World>)
    ensures Run(worlds, [Attach(t, {}, [RepoRow(p, Symlink, {"skill", "extra"})], {}),
                         Attach(t, {}, [RepoRow(p, Portable, {"skill"})], {})], {"skill", "extra"})
    ensures Managed(AdapterAt(worlds[2], p), "extra") && "extra" !in UnionAt(worlds[2].registry, p)
  {
    var w, library := Fresh(map[]), {"skill", "extra"};
    var first, second := RepoRow(p, Symlink, library), RepoRow(p, Portable, {"skill"});
    NothingAgrees(w);
    hide Moves, PersonalAdapters.Inv, Scoped, Run, Taken, UnionAt, Managed;
    SwitchKeeps(AdapterAt(w, p));
    var w1 := OwnMove(w, t, first, library);
    var w2 := OwnMove(w1, t, second, library);
    worlds := [w, w1, w2];
    TwoMoves(w, w1, w2, Attach(t, {}, [first], {}), Attach(t, {}, [second], {}), library);
    OnlySecond(w2.registry, t, second);
  }

  lemma SwitchKeeps(a: Adapter)
    requires a == Adapter(map[], None)
    ensures !Taken(a, {"skill", "extra"})
    ensures var b := Scoped(a, {"skill", "extra"}, Symlink);
            !Taken(b, {"skill"}) && Managed(Scoped(b, {"skill"}, Portable), "extra")
  {
    assert "skill"[0] != "extra"[0];
  }

  lemma OnlySecond(r: Registry, t: TargetKey, row: Row)
    requires r.owners == map[] && r.targets.Keys == {t} && r.targets[t].rows == [row] && row.RepoRow?
    requires row.packages == {"skill"}
    ensures "extra" !in UnionAt(r, row.path)
  {
    assert "skill"[0] != "extra"[0];
    assert RowsUnion([row], row.path) <= {"skill"};
  }

  // ----- the operations themselves -----

  /** A home directory: the saved registry and every personal adapter directory. */
  class PersonalHome {
    var registry: Registry
    var adapters: map<Path, Adapter>

    constructor (w: World)
      ensures Value() == w
    {
      registry, adapters := w.registry, w.adapters;
    }

    function Value(): World
      reads this
    {
      World(registry, adapters)
    }

    /** `detach_personal`; on a failed write the journal puts every directory back. */
    method DetachOwners(gone: set<OwnerKey>, library: set<Name>) returns (ok: bool)
      modifies this
      ensures ok <==> DetachReady(old(Value()), gone, library)
      ensures Value() == if ok then Detached(old(Value()), gone, library) else old(Value())
      ensures ok ==> SparesForeign(old(Value()), Value())
    {
      hide Detachable, Remaining, ModeAt, Written, Collides, PackageRegistries.DetachOwners;
      if !(gone <= registry.owners.Keys) || !Detachable(registry, gone) {
        return false;
      }
      ghost var was := Value();
      var before, todo := adapters, PathsOfOwners(registry.owners, gone);
      ghost var paths := todo;
      while todo != {}
        invariant todo <= paths && registry == old(registry)
        invariant adapters.Keys == before.Keys + (paths - todo)
        invariant forall p :: p in adapters && (p !in paths || p in todo) ==> adapters[p] == before[p]
        invariant forall p :: p in paths && p !in todo ==>
                    && Remaining(registry, gone, p).Some? && ModeAt(registry.owners, gone, p).Some?
                    && Remaining(registry, gone, p).value <= library
                    && !Collides(AdapterAt(was, p), Remaining(registry, gone, p).value)
                    && adapters[p] == Written(AdapterAt(was, p), Remaining(registry, gone, p).value,
                                              ModeAt(registry.owners, gone, p).value)
        decreases todo
      {
        var p :| p in todo;
        var written := RewritePath(AdapterAt(Value(), p), gone, library, p);
        if written.None? {
          adapters := before;
          return false;
        }
        adapters := adapters[p := written.value];
        todo := todo - {p};
      }
      registry := PackageRegistries.DetachOwners(registry, gone);
      ok := true;
      DetachSparesForeign(was, gone, library);
    }

    /** One path of the plan: the names that remain, and the directory written with them. */
    method RewritePath(a: Adapter, gone: set<OwnerKey>, library: set<Name>, p: Path) returns (written: Option<Adapter>)
      ensures written.Some? <==>
                && Remaining(registry, gone, p).Some? && Remaining(registry, gone, p).value <= library
                && !Collides(a, Remaining(registry, gone, p).value)
      ensures written.Some? ==> ModeAt(registry.owners, gone, p).Some?
      ensures written.Some? ==>
                written.value == Written(a, Remaining(registry, gone, p).value, ModeAt(registry.owners, gone, p).value)
    {
      hide Selection, Written, Collides, ModeAt;
      var mode := ModeAt(registry.owners, gone, p);
      if mode.None? {
        return None;
      }
      var names := Select(registry, p, mode.value, Emptied(registry.owners, gone, p), None, {});
      if names.None? {
        return None;
      }
      var directory := new AdapterDirectory(a);
      var ok := directory.WriteEntries(names.value, mode.value, library);
      written := if ok then Some(directory.Value()) else None;
    }

    /** Writes the directory of every row, then saves the registry; on any refusal every directory is put back. */
    method AttachOwners(t: TargetKey, current: set<PackageId>, rows: seq<Row>, available: set<Name>, library: set<Name>)
      returns (ok: bool)
      modifies this
      ensures ok <==> AttachReady(old(Value()), t, rows, available, library)
      ensures ok ==> Attached(old(Value()), t, current, rows, available, Value())
      ensures ok ==> RowsInForm(rows, Value())
      ensures !ok ==> Value() == old(Value())
      ensures ok ==> SparesForeign(old(Value()), Value())
    {
      hide Shares, Own, RowNames, Written, Scoped, Taken, Collides, Gather, Apply;
      if !WellPaired(rows) {
        return false;
      }
      ghost var was := Value();
      var before := adapters;
      for i := 0 to |rows|
        invariant registry == was.registry
        invariant forall k {:trigger rows[k]} :: 0 <= k < i ==>
                    && RowReady(was.registry, AdapterAt(was, rows[k].path), t, rows, rows[k], library)
                    && RowWritten(was, t, rows, rows[k], Value())
        invariant forall p {:trigger AdapterAt(Value(), p)} :: !WrittenBefore(was, rows, i, p) ==>
                    AdapterAt(Value(), p) == AdapterAt(was, p)
      {
        var row := rows[i];
        ghost var former := Value();
        OneWriter(was.registry.owners, rows, row);
        if Shares(registry.owners, rows, row) {
          WrittenOnce(was, rows, i);
          assert AdapterAt(former, row.path) == AdapterAt(was, row.path);
          var written := WriteRow(AdapterAt(Value(), row.path), t, rows, row, library);
          if written.None? {
            adapters := before;
            return false;
          }
          adapters := adapters[row.path := written.value];
        } else if Own(registry.owners, rows, row) {
          WrittenOnce(was, rows, i);
          assert AdapterAt(former, row.path) == AdapterAt(was, row.path);
          var written := WriteOwn(AdapterAt(Value(), row.path), row, library);
          if written.None? {
            adapters := before;
            return false;
          }
          adapters := adapters[row.path := written.value];
        }
        StillWritten(was, t, rows, i, former, Value());
      }
      var book := new PackageRegistry(registry);
      var recorded := book.UpsertTarget(t, current, rows, available);
      if !recorded {
        adapters := before;
        return false;
      }
      ghost var former := Value();
      registry := book.Value();
      assert forall p {:trigger AdapterAt(Value(), p)} :: AdapterAt(Value(), p) == AdapterAt(former, p);
      ok := true;
      AttachedForms(was, t, current, rows, available, library, Value());
      AttachSparesForeign(was, t, current, rows, available, library, Value());
    }

    /** The detach of a target: every removed row's directory is rewritten or cleared, then the registry saved; on any
        refusal every directory is put back. */
    method ReleaseTarget(t: TargetKey, kept: seq<Row>, remaining: bool, removed: seq<Row>, library: set<Name>)
      returns (ok: bool)
      requires Receipts(registry, t, kept, remaining, removed)
      modifies this
      ensures ok <==> ReleaseReady(old(Value()), t, kept, remaining, removed, library)
      ensures ok ==> LeftBehind(old(Value()), t, kept, remaining, removed, Value())
      ensures ok ==> SparesForeign(old(Value()), Value())
      ensures !ok ==> Value() == old(Value())
    {
      hide LeftNames, Written, Cleared, Collides, Keeps, DetachTarget, SomebodyAt;
      ghost var was := Value();
      var before := adapters;
      for i := 0 to |removed|
        invariant registry == was.registry
        invariant forall k {:trigger removed[k]} :: 0 <= k < i ==>
                    && RowReleasable(was.registry, AdapterAt(was, removed[k].path), t, removed[k], library)
                    && RowLeft(was, t, removed[k], Value())
        invariant forall p {:trigger AdapterAt(Value(), p)} :: !Claimed(removed[..i], p) ==>
                    AdapterAt(Value(), p) == AdapterAt(was, p)
      {
        var row := removed[i];
        ghost var former := Value();
        NotYet(removed, i);
        assert AdapterAt(former, row.path) == AdapterAt(was, row.path);
        var written := ReleaseRow(AdapterAt(Value(), row.path), t, row, library);
        if written.None? {
          adapters := before;
          return false;
        }
        adapters := adapters[row.path := written.value];
        assert forall p {:trigger AdapterAt(Value(), p)} :: p != row.path ==>
               AdapterAt(Value(), p) == AdapterAt(former, p);
        StillLeft(was, t, removed, i, former, Value());
      }
      assert removed[..|removed|] == removed;
      ghost var former := Value();
      registry := DetachTarget(registry, t, kept, remaining);
      assert forall p {:trigger AdapterAt(Value(), p)} :: AdapterAt(Value(), p) == AdapterAt(former, p);
      ok := true;
      ReleaseSparesForeign(was, t, kept, remaining, removed, library, Value());
    }

    /** One removed row: the names that are left, or a cleared directory. */
    method ReleaseRow(a: Adapter, t: TargetKey, row: Row, library: set<Name>) returns (written: Option<Adapter>)
      requires row.RepoRow?
      ensures written.Some? <==> RowReleasable(registry, a, t, row, library)
      ensures written.Some? ==>
                if SomebodyAt(registry.owners, row.path) then
                  LeftNames(registry, t, row).Some?
                  && written.value == Written(a, LeftNames(registry, t, row).value, row.mode)
                else written.value == Cleared(a, row.packages)
    {
      hide Selection, Written, Cleared, Collides, SomebodyAt, OwnersFit, OwnersAt;
      if !SomebodyAt(registry.owners, row.path) {
        var own := new ScopedDirectory(a);
        own.RemoveManaged(row.packages);
        return Some(own.Value());
      }
      if !OwnersFit(registry.owners, row.path, row.mode) {
        return None;
      }
      var names := Select(registry, row.path, row.mode, OwnersAt(registry.owners, row.path), Some(t), {});
      if names.None? {
        return None;
      }
      var directory := new AdapterDirectory(a);
      var ok := directory.WriteEntries(names.value, row.mode, library);
      written := if ok then Some(directory.Value()) else None;
    }

    /** A repository's own row: planning refuses taken names, and the writer a missing package. */
    method WriteOwn(a: Adapter, row: Row, library: set<Name>) returns (written: Option<Adapter>)
      requires row.RepoRow?
      ensures written.Some? <==> row.packages <= library && !Taken(a, row.packages)
      ensures written.Some? ==> written.value == Scoped(a, row.packages, row.mode)
    {
      hide Scoped, Taken;
      if Taken(a, row.packages) {
        return None;
      }
      var directory := new ScopedDirectory(a);
      var ok := directory.WriteScoped(row.packages, row.mode, library);
      written := if ok then Some(directory.Value()) else None;
    }

    /** One row of an installation: the union at its path, and the directory written with it. */
    method WriteRow(a: Adapter, t: TargetKey, rows: seq<Row>, row: Row, library: set<Name>)
      returns (written: Option<Adapter>)
      requires Shares(registry.owners, rows, row)
      ensures written.Some? <==>
                RowNames(registry, t, rows, row).Some? && RowNames(registry, t, rows, row).value <= library
                && !Collides(a, RowNames(registry, t, rows, row).value)
      ensures written.Some? ==> RowNames(registry, t, rows, row).Some?
      ensures written.Some? ==> written.value == Written(a, RowNames(registry, t, rows, row).value, row.mode)
    {
      hide Selection, Written, Collides, SpeaksFor, RowsUnion, Replaced, Shares;
      var speaksFor := SpeaksFor(registry.owners, row);
      if speaksFor.None? {
        return None;
      }
      var names := Select(registry, row.path, row.mode, speaksFor.value, Replaced(t, rows, row.path),
                          RowsUnion(rows, row.path));
      if names.None? {
        return None;
      }
      var directory := new AdapterDirectory(a);
      var ok := directory.WriteEntries(names.value, row.mode, library);
      written := if ok then Some(directory.Value()) else None;
    }
  }

  /** One of the first `i` rows wrote the path. */
  ghost predicate WrittenBefore(w: World, rows: seq<Row>, i: nat, p: Path)
    requires i <= |rows|
  {
    exists k :: 0 <= k < i && rows[k].path == p && WritesAt(w.registry.owners, rows, rows[k])
  }

  /** Removed rows stand at different paths. */
  lemma NotYet(removed: seq<Row>, i: nat)
    requires WellPaired(removed) && i < |removed| && removed[i].RepoRow?
    ensures !Claimed(removed[..i], removed[i].path)
    ensures forall p :: Claimed(removed[..i + 1], p) <==> Claimed(removed[..i], p) || p == removed[i].path
  {
    var front := removed[..i];
    assert removed[..i + 1] == front + [removed[i]];
    assert forall k :: 0 <= k < i ==> front[k] == removed[k];
    forall p
      ensures Claimed(front + [removed[i]], p) <==> Claimed(front, p) || p == removed[i].path
    {
      if Claimed(front, p) {
        var k :| 0 <= k < |front| && Claims(front[k], p);
        assert Claims((front + [removed[i]])[k], p);
      }
      if p == removed[i].path {
        assert Claims((front + [removed[i]])[i], p);
      }
    }
  }

  lemma StillLeft(w: World, t: TargetKey, removed: seq<Row>, i: nat, former: World, later: World)
    requires WellPaired(removed) && i < |removed|
    requires forall k {:trigger removed[k]} :: 0 <= k <= i ==> removed[k].RepoRow?
    requires forall k {:trigger removed[k]} :: 0 <= k < i ==> RowLeft(w, t, removed[k], former)
    requires forall p {:trigger AdapterAt(later, p)} :: p != removed[i].path ==>
               AdapterAt(later, p) == AdapterAt(former, p)
    ensures forall k {:trigger removed[k]} :: 0 <= k < i ==> RowLeft(w, t, removed[k], later)
  {
    hide LeftNames, Written, Cleared, AdapterAt, SomebodyAt;
    forall k {:trigger removed[k]} | 0 <= k < i
      ensures RowLeft(w, t, removed[k], later)
    {
      assert removed[k].path != removed[i].path;
    }
  }

  lemma OneWriter(owners: map<OwnerKey, OwnerRecord>, rows: seq<Row>, row: Row)
    ensures Own(owners, rows, row) ==> row.RepoRow? && !Shares(owners, rows, row)
  {
  }

  predicate WritesAt(owners: map<OwnerKey, OwnerRecord>, rows: seq<Row>, row: Row) {
    Shares(owners, rows, row) || Own(owners, rows, row)
  }

  /** No two rows write the same path. */
  lemma WrittenOnce(w: World, rows: seq<Row>, i: nat)
    requires WellPaired(rows) && i < |rows| && WritesAt(w.registry.owners, rows, rows[i])
    ensures !WrittenBefore(w, rows, i, rows[i].path)
  {
  }

  /** One more row written leaves what earlier rows wrote. */
  lemma StillWritten(w: World, t: TargetKey, rows: seq<Row>, i: nat, former: World, later: World)
    requires WellPaired(rows) && i < |rows|
    requires forall k {:trigger rows[k]} :: 0 <= k < i ==> RowWritten(w, t, rows, rows[k], former)
    requires forall p {:trigger AdapterAt(later, p)} :: p != rows[i].path ==>
               AdapterAt(later, p) == AdapterAt(former, p)
    requires !WritesAt(w.registry.owners, rows, rows[i]) ==> later == former
    ensures forall k {:trigger rows[k]} :: 0 <= k < i ==> RowWritten(w, t, rows, rows[k], later)
  {
    hide RowNames, Written, Scoped, AdapterAt;
    forall k {:trigger rows[k]} | 0 <= k < i
      ensures RowWritten(w, t, rows, rows[k], later)
    {
      if WritesAt(w.registry.owners, rows, rows[k]) && WritesAt(w.registry.owners, rows, rows[i]) {
        WrittenOnce(w, rows, i);
        assert rows[k].path != rows[i].path;
      }
    }
  }
}
