/** The shared package registry: targets, personal owners and reference sets
    (ls/core/registry.py, personal_registry.py). */
module PackageRegistries {
  import opened Wrappers
  import opened Ordering
  import opened Text

  type Name = string
  type PackageId = string
  type Path = string
  type OwnerKey = string
  type TargetKey = string

  datatype Mode = Symlink | Portable

  /** Who keeps a package alive. */
  datatype Ref = Target(target: TargetKey) | Personal(owner: OwnerKey)

  /** One owner's recorded selection; an external package is registered under its binding's identity. */
  datatype OwnerRecord = OwnerRecord(packages: set<Name>, bindings: map<Name, PackageId>, paths: set<Path>, mode: Mode)

  /** One physical adapter in a receipt; a personal row may omit the selection of each owner. */
  datatype Row =
    | RepoRow(path: Path, mode: Mode, packages: set<Name>)
    | PersonalRow(path: Path, mode: Mode, owners: set<OwnerKey>, packages: set<Name>,
                  chosen: Option<map<OwnerKey, set<Name>>>, bindings: map<Name, PackageId>)

  datatype TargetRecord = TargetRecord(packages: set<PackageId>, rows: seq<Row>)

  datatype Registry = Registry(packages: map<PackageId, set<Ref>>, targets: map<TargetKey, TargetRecord>,
                               owners: map<OwnerKey, OwnerRecord>)

  /** The identities an owner's selection is registered under. */
  function Ids(record: OwnerRecord): set<PackageId> {
    set n | n in record.packages :: if n in record.bindings then record.bindings[n] else n
  }

  // ----- selections of the owners of one row -----

  function Union(selections: map<OwnerKey, set<Name>>): set<Name> {
    set o, n | o in selections && n in selections[o] :: n
  }

  /** `personal_selections`; `None` where it raises. */
  function PersonalSelections(row: Row): Option<map<OwnerKey, set<Name>>> {
    match row
    case RepoRow(_, _, _) => Some(map[])
    case PersonalRow(_, _, owners, packages, chosen, _) =>
      if chosen.None? then Some(map o | o in owners :: packages)
      else if chosen.value.Keys != owners || Union(chosen.value) != packages then None
      else chosen
  }

  /** `merge_bindings` of two groups; `None` on conflicting origins. */
  function MergeBindings(a: map<Name, PackageId>, b: map<Name, PackageId>): Option<map<Name, PackageId>> {
    if exists n :: n in a && n in b && a[n] != b[n] then None else Some(a + b)
  }

  /** One owner's record after one more row, or `None` where recording raises. */
  function Extend(prior: Option<OwnerRecord>, row: Row, names: set<Name>): Option<OwnerRecord>
    requires row.PersonalRow?
  {
    var own := map n | n in row.bindings && n in names :: row.bindings[n];
    match prior
    case None => Some(OwnerRecord(names, own, {row.path}, row.mode))
    case Some(r) =>
      if r.packages != names || r.mode != row.mode then None
      else
        match MergeBindings(r.bindings, own)
        case None => None
        case Some(bindings) => Some(OwnerRecord(names, bindings, r.paths + {row.path}, row.mode))
  }

  /** The owners selected by a row join those selected before. */
  function AddRow(selected: map<OwnerKey, OwnerRecord>, row: Row,
                  available: set<Name>): Option<map<OwnerKey, OwnerRecord>>
  {
    match PersonalSelections(row)
    case None => None
    case Some(names) =>
      if row.RepoRow? then Some(selected)
      else if
        exists o :: o in names && (!(names[o] <= available) || Extend(Lookup(selected, o), row, names[o]).None?)
      then None
      else
        Some(selected + map o | o in names :: Extend(Lookup(selected, o), row, names[o]).value)
  }

  /** The owner records a list of rows asks for. */
  function Gather(rows: seq<Row>, available: set<Name>): Option<map<OwnerKey, OwnerRecord>> {
    if rows == [] then Some(map[])
    else
      match Gather(rows[..|rows| - 1], available)
      case None => None
      case Some(selected) => AddRow(selected, rows[|rows| - 1], available)
  }

  predicate Lists(row: Row, o: OwnerKey) { row.PersonalRow? && o in row.owners }

  /** The paths of the rows that list an owner. */
  function PathsOf(rows: seq<Row>, o: OwnerKey): set<Path> {
    set i | 0 <= i < |rows| && Lists(rows[i], o) :: rows[i].path
  }

  lemma PathsOfStep(rows: seq<Row>, row: Row, o: OwnerKey)
    ensures PathsOf(rows + [row], o) == PathsOf(rows, o) + (if Lists(row, o) then {row.path} else {})
  {
    var all := rows + [row];
    forall p | p in PathsOf(rows, o)
      ensures p in PathsOf(all, o)
    {
      var i :| 0 <= i < |rows| && Lists(rows[i], o) && rows[i].path == p;
      assert all[i] == rows[i];
    }
    if Lists(row, o) {
      assert all[|rows|] == row;
    }
  }

  lemma AddRowMeaning(selected: map<OwnerKey, OwnerRecord>, row: Row, available: set<Name>, o: OwnerKey)
    requires AddRow(selected, row, available).Some?
    ensures var after := AddRow(selected, row, available).value;
            if Lists(row, o) then
              && o in after && PersonalSelections(row).Some? && o in PersonalSelections(row).value
              && after[o].packages == PersonalSelections(row).value[o] <= available && after[o].mode == row.mode
              && after[o].paths == (if o in selected then selected[o].paths else {}) + {row.path}
              && (o in selected ==> after[o].packages == selected[o].packages && after[o].mode == selected[o].mode)
            else Lookup(after, o) == Lookup(selected, o)
  {
    hide Union, MergeBindings;
    var names := PersonalSelections(row).value;
    if Lists(row, o) {
      assert o in names;
      assert names[o] <= available && Extend(Lookup(selected, o), row, names[o]).Some?;
    }
  }

  /** The row agrees with a gathered record: same selection, same mode. */
  predicate Agrees(row: Row, o: OwnerKey, record: OwnerRecord) {
    Lists(row, o) ==>
      row.mode == record.mode && PersonalSelections(row).Some?
      && Lookup(PersonalSelections(row).value, o) == Some(record.packages)
  }

  /** A gathered record has exactly the paths of the rows that list its owner, and one selection and mode for
      all of them. */
  lemma {:induction false} GatherMeaning(rows: seq<Row>, available: set<Name>, o: OwnerKey)
    requires Gather(rows, available).Some?
    ensures o in Gather(rows, available).value <==> PathsOf(rows, o) != {}
    ensures o in Gather(rows, available).value ==>
              var record := Gather(rows, available).value[o];
              && record.packages <= available && record.paths == PathsOf(rows, o)
              && forall i {:trigger rows[i]} :: 0 <= i < |rows| ==> Agrees(rows[i], o, record)
  {
    hide PersonalSelections, AddRow, Lists, PathsOf;
    if rows == [] {
      NoPaths(o);
    } else {
      var n := |rows| - 1;
      var front, row := rows[..n], rows[n];
      GatherMeaning(front, available, o);
      assert rows == front + [row];
      PathsOfStep(front, row, o);
      AddRowMeaning(Gather(front, available).value, row, available, o);
      forall i {:trigger rows[i]} | 0 <= i < |rows| && o in Gather(rows, available).value
        ensures Agrees(rows[i], o, Gather(rows, available).value[o])
      {
        if i < n {
          assert front[i] == rows[i];
          if o !in Gather(front, available).value {
            NotListed(front, o, i);
          }
        }
      }
    }
  }

  lemma NoPaths(o: OwnerKey)
    ensures PathsOf([], o) == {}
  {
  }

  lemma NotListed(rows: seq<Row>, o: OwnerKey, i: nat)
    requires i < |rows|
    ensures Lists(rows[i], o) ==> rows[i].path in PathsOf(rows, o)
  {
  }

  // ----- which rows can be recorded -----

  /** What the row selects for one of its owners. */
  ghost function Wanted(row: Row, o: OwnerKey): set<Name> {
    match row
    case RepoRow(_, _, _) => {}
    case PersonalRow(_, _, _, packages, chosen, _) =>
      if chosen.None? then packages else if o in chosen.value then chosen.value[o] else {}
  }

  /** A selection per owner names exactly the row's owners, and together exactly its packages. */
  ghost predicate WellChosen(row: Row) {
    row.PersonalRow? && row.chosen.Some? ==>
      && (forall o :: o in row.chosen.value <==> o in row.owners)
      && forall n :: n in row.packages <==> exists o :: o in row.chosen.value && n in row.chosen.value[o]
  }

  ghost predicate Selects(row: Row, o: OwnerKey, n: Name) {
    Lists(row, o) && WellChosen(row) && n in Wanted(row, o)
  }

  /** Two rows ask the same of an owner: one selection, one mode, one origin for each package. */
  ghost predicate Consistent(a: Row, b: Row, o: OwnerKey) {
    Lists(a, o) && Lists(b, o) && WellChosen(a) && WellChosen(b) ==>
      && a.mode == b.mode && Wanted(a, o) == Wanted(b, o)
      && forall n :: n in Wanted(a, o) && n in a.bindings && n in b.bindings ==> a.bindings[n] == b.bindings[n]
  }

  ghost predicate Recordable(rows: seq<Row>, available: set<Name>) {
    && (forall i :: 0 <= i < |rows| ==> WellChosen(rows[i]))
    && (forall i, o, n :: 0 <= i < |rows| && Selects(rows[i], o, n) ==> n in available)
    && forall i, j, o :: 0 <= i < j < |rows| ==> Consistent(rows[i], rows[j], o)
  }

  /** The row gives the owner's package this origin. */
  ghost predicate Binds(row: Row, o: OwnerKey, n: Name, id: PackageId) {
    Selects(row, o, n) && n in row.bindings && row.bindings[n] == id
  }

  ghost predicate BoundBy(rows: seq<Row>, o: OwnerKey, n: Name, id: PackageId) {
    exists i :: 0 <= i < |rows| && Binds(rows[i], o, n, id)
  }

  /** The record's origins are exactly those the rows give. */
  ghost predicate BindingsFrom(rows: seq<Row>, o: OwnerKey, bindings: map<Name, PackageId>) {
    forall n, id :: Lookup(bindings, n) == Some(id) <==> BoundBy(rows, o, n, id)
  }

  lemma ChosenMeans(row: Row)
    ensures PersonalSelections(row).Some? <==> WellChosen(row)
    ensures WellChosen(row) && row.PersonalRow? ==>
              && PersonalSelections(row).value.Keys == row.owners
              && forall o :: o in row.owners ==> PersonalSelections(row).value[o] == Wanted(row, o)
  {
    if row.PersonalRow? && row.chosen.Some? {
      assert row.chosen.value.Keys == row.owners <==> forall o :: o in row.chosen.value <==> o in row.owners;
      assert Union(row.chosen.value) == row.packages <==>
             forall n :: n in row.packages <==> exists o :: o in row.chosen.value && n in row.chosen.value[o];
    }
  }

  /** The rows that can be recorded are exactly the consistent ones, and each record's origins are the rows' own. */
  lemma {:induction false} GatherExact(rows: seq<Row>, available: set<Name>)
    ensures Gather(rows, available).Some? <==> Recordable(rows, available)
    ensures Gather(rows, available).Some? ==>
              forall o :: o in Gather(rows, available).value ==>
                BindingsFrom(rows, o, Gather(rows, available).value[o].bindings)
  {
    if rows != [] {
      var n := |rows| - 1;
      var front, row := rows[..n], rows[n];
      GatherExact(front, available);
      assert rows == front + [row];
      hide Gather, Recordable, BindingsFrom;
      GatherStep(front, row, available);
      RecordableStep(front, row, available);
      if Gather(front, available).Some? {
        OneMoreRow(front, row, available);
      }
    }
  }

  lemma GatherStep(front: seq<Row>, row: Row, available: set<Name>)
    ensures Gather(front + [row], available)
         == if Gather(front, available).None? then None else AddRow(Gather(front, available).value, row, available)
  {
    hide AddRow;
    assert (front + [row])[..|front|] == front;
  }

  ghost predicate Joins(front: seq<Row>, row: Row, available: set<Name>) {
    && WellChosen(row) && (forall o, n :: Selects(row, o, n) ==> n in available)
    && forall i, o :: 0 <= i < |front| ==> Consistent(front[i], row, o)
  }

  lemma RecordableStep(front: seq<Row>, row: Row, available: set<Name>)
    ensures Recordable(front + [row], available) <==> Recordable(front, available) && Joins(front, row, available)
  {
    hide WellChosen, Selects, Consistent;
    var all := front + [row];
    assert all[|front|] == row && forall i :: 0 <= i < |front| ==> all[i] == front[i];
    if Recordable(all, available) {
      forall i, o | 0 <= i < |front|
        ensures Consistent(front[i], row, o)
      {
        assert Consistent(all[i], all[|front|], o);
      }
      forall i, j, o | 0 <= i < j < |front|
        ensures Consistent(front[i], front[j], o)
      {
        assert Consistent(all[i], all[j], o);
      }
      assert Recordable(front, available);
    }
  }

  /** One more row is recorded exactly when it is consistent with the rows before it. */
  lemma OneMoreRow(front: seq<Row>, row: Row, available: set<Name>)
    requires Gather(front, available).Some? && Recordable(front, available)
    requires forall o :: o in Gather(front, available).value ==>
               BindingsFrom(front, o, Gather(front, available).value[o].bindings)
    ensures var added := AddRow(Gather(front, available).value, row, available);
            && (added.Some? <==> Joins(front, row, available))
            && (added.Some? ==> forall o :: o in added.value ==>
                  BindingsFrom(front + [row], o, added.value[o].bindings))
  {
    ChosenMeans(row);
    var selected := Gather(front, available).value;
    if row.PersonalRow? && WellChosen(row) {
      forall o | o in row.owners
        ensures var extended := Extend(Lookup(selected, o), row, Wanted(row, o));
                && (extended.Some? <==> forall i :: 0 <= i < |front| ==> Consistent(front[i], row, o))
                && (extended.Some? ==> BindingsFrom(front + [row], o, extended.value.bindings))
      {
        ExtendExact(front, row, available, o);
      }
    }
    hide Gather, Recordable, BindingsFrom, Extend, WellChosen, Wanted, PersonalSelections, Consistent;
    RowJoins(front, row, available);
    var added := AddRow(selected, row, available);
    if added.Some? {
      forall o | o in added.value && !Lists(row, o)
        ensures BindingsFrom(front + [row], o, added.value[o].bindings)
      {
        assert added.value[o] == selected[o];
        Unlisted(front, row, o, selected[o].bindings);
      }
    }
  }

  /** A row joins when every owner it lists is offered its packages and agrees with the rows before. */
  lemma RowJoins(front: seq<Row>, row: Row, available: set<Name>)
    ensures Joins(front, row, available) <==>
              && WellChosen(row)
              && forall o :: Lists(row, o) ==>
                   Wanted(row, o) <= available && forall i :: 0 <= i < |front| ==> Consistent(front[i], row, o)
  {
    if WellChosen(row) {
      forall o | Lists(row, o)
        ensures Wanted(row, o) <= available <==> forall n :: Selects(row, o, n) ==> n in available
      {
      }
      assert forall i, o :: 0 <= i < |front| && !Lists(row, o) ==> Consistent(front[i], row, o);
    }
  }

  lemma BoundByMore(front: seq<Row>, row: Row, o: OwnerKey, n: Name, id: PackageId)
    ensures BoundBy(front + [row], o, n, id) <==> BoundBy(front, o, n, id) || Binds(row, o, n, id)
  {
    hide Binds;
    var all := front + [row];
    if i :| 0 <= i < |front| && Binds(front[i], o, n, id) {
      assert all[i] == front[i];
    }
    if Binds(row, o, n, id) {
      assert all[|front|] == row;
    }
  }

  lemma Unlisted(front: seq<Row>, row: Row, o: OwnerKey, bindings: map<Name, PackageId>)
    requires BindingsFrom(front, o, bindings) && !Lists(row, o)
    ensures BindingsFrom(front + [row], o, bindings)
  {
    hide BoundBy;
    forall n, id
      ensures Lookup(bindings, n) == Some(id) <==> BoundBy(front + [row], o, n, id)
    {
      BoundByMore(front, row, o, n, id);
    }
  }

  lemma ExtendExact(front: seq<Row>, row: Row, available: set<Name>, o: OwnerKey)
    requires Gather(front, available).Some? && Recordable(front, available)
    requires row.PersonalRow? && WellChosen(row) && o in row.owners
    requires o in Gather(front, available).value ==>
               BindingsFrom(front, o, Gather(front, available).value[o].bindings)
    ensures var extended := Extend(Lookup(Gather(front, available).value, o), row, Wanted(row, o));
            && (extended.Some? <==> forall i :: 0 <= i < |front| ==> Consistent(front[i], row, o))
            && (extended.Some? ==> BindingsFrom(front + [row], o, extended.value.bindings))
  {
    GatherMeaning(front, available, o);
    var selected := Gather(front, available).value;
    forall i | 0 <= i < |front| && Lists(front[i], o)
      ensures o in selected && WellChosen(front[i])
      ensures front[i].mode == selected[o].mode && Wanted(front[i], o) == selected[o].packages
    {
      ListedBefore(front, available, o, i);
    }
    hide Gather, Recordable, WellChosen;
    if o in selected {
      var p :| p in PathsOf(front, o);
      ExtendsPrior(front, row, selected[o], o);
    } else {
      ExtendsNone(front, row, o);
    }
  }

  lemma ListedBefore(front: seq<Row>, available: set<Name>, o: OwnerKey, i: nat)
    requires Gather(front, available).Some? && Recordable(front, available) && i < |front| && Lists(front[i], o)
    ensures o in Gather(front, available).value && WellChosen(front[i])
    ensures var record := Gather(front, available).value[o];
            front[i].mode == record.mode && Wanted(front[i], o) == record.packages
  {
    GatherMeaning(front, available, o);
    NotListed(front, o, i);
    ChosenMeans(front[i]);
    assert Agrees(front[i], o, Gather(front, available).value[o]);
  }

  lemma ExtendsNone(front: seq<Row>, row: Row, o: OwnerKey)
    requires row.PersonalRow? && WellChosen(row) && o in row.owners
    requires forall i :: 0 <= i < |front| ==> !Lists(front[i], o)
    ensures Extend(None, row, Wanted(row, o)).Some?
    ensures BindingsFrom(front + [row], o, Extend(None, row, Wanted(row, o)).value.bindings)
    ensures forall i :: 0 <= i < |front| ==> Consistent(front[i], row, o)
  {
    var bindings := Extend(None, row, Wanted(row, o)).value.bindings;
    forall n, id
      ensures Lookup(bindings, n) == Some(id) <==> BoundBy(front + [row], o, n, id)
    {
      BoundByMore(front, row, o, n, id);
    }
  }

  lemma ExtendsPrior(front: seq<Row>, row: Row, record: OwnerRecord, o: OwnerKey)
    requires row.PersonalRow? && WellChosen(row) && o in row.owners && BindingsFrom(front, o, record.bindings)
    requires forall i :: 0 <= i < |front| && Lists(front[i], o) ==>
               && WellChosen(front[i]) && front[i].mode == record.mode && Wanted(front[i], o) == record.packages
    requires exists i :: 0 <= i < |front| && Lists(front[i], o)
    ensures var extended := Extend(Some(record), row, Wanted(row, o));
            && (extended.Some? <==> forall i :: 0 <= i < |front| ==> Consistent(front[i], row, o))
            && (extended.Some? ==> BindingsFrom(front + [row], o, extended.value.bindings))
  {
    hide WellChosen, Wanted;
    var names := Wanted(row, o);
    var own := map n | n in row.bindings && n in names :: row.bindings[n];
    if record.packages == names && record.mode == row.mode {
      if forall i :: 0 <= i < |front| ==> Consistent(front[i], row, o) {
        forall n | n in record.bindings && n in own
          ensures record.bindings[n] == own[n]
        {
          assert Lookup(record.bindings, n) == Some(record.bindings[n]);
          var i :| 0 <= i < |front| && Binds(front[i], o, n, record.bindings[n]);
          assert Consistent(front[i], row, o);
        }
      }
      if MergeBindings(record.bindings, own).Some? {
        forall i | 0 <= i < |front| && Lists(front[i], o)
          ensures Consistent(front[i], row, o)
        {
          SameOrigins(front, row, record, o, i);
        }
        MergedFrom(front, row, record, o);
      }
    }
  }

  lemma SameOrigins(front: seq<Row>, row: Row, record: OwnerRecord, o: OwnerKey, i: nat)
    requires row.PersonalRow? && WellChosen(row) && o in row.owners && BindingsFrom(front, o, record.bindings)
    requires i < |front| && Lists(front[i], o) && WellChosen(front[i])
    requires front[i].mode == record.mode == row.mode && Wanted(front[i], o) == record.packages == Wanted(row, o)
    requires MergeBindings(record.bindings,
                           map n | n in row.bindings && n in Wanted(row, o) :: row.bindings[n]).Some?
    ensures Consistent(front[i], row, o)
  {
    hide WellChosen, Wanted;
    forall n | n in Wanted(row, o) && n in front[i].bindings && n in row.bindings
      ensures front[i].bindings[n] == row.bindings[n]
    {
      assert Binds(front[i], o, n, front[i].bindings[n]);
      assert BoundBy(front, o, n, front[i].bindings[n]);
    }
  }

  lemma MergedFrom(front: seq<Row>, row: Row, record: OwnerRecord, o: OwnerKey)
    requires row.PersonalRow? && WellChosen(row) && o in row.owners && BindingsFrom(front, o, record.bindings)
    requires MergeBindings(record.bindings,
                           map n | n in row.bindings && n in Wanted(row, o) :: row.bindings[n]).Some?
    ensures BindingsFrom(front + [row], o,
                         record.bindings + map n | n in row.bindings && n in Wanted(row, o) :: row.bindings[n])
  {
    hide WellChosen, Wanted, BoundBy;
    var own := map n | n in row.bindings && n in Wanted(row, o) :: row.bindings[n];
    forall n, id
      ensures Lookup(record.bindings + own, n) == Some(id) <==> BoundBy(front + [row], o, n, id)
    {
      BoundByMore(front, row, o, n, id);
      assert Lookup(own, n) == Some(id) <==> Binds(row, o, n, id);
    }
  }

  // ----- operations -----

  function RefsOf(r: Registry, p: PackageId): set<Ref> { if p in r.packages then r.packages[p] else {} }

  /** The reference set after the selected owners' records replaced their earlier ones. */
  function Rereferenced(refs: set<Ref>, p: PackageId, selected: map<OwnerKey, OwnerRecord>): set<Ref> {
    (refs - set o | o in selected :: Personal(o)) + set o | o in selected && p in Ids(selected[o]) :: Personal(o)
  }

  /** One owner's key taken out of a reference set, and put back if it belongs there. */
  function Rekeyed(refs: set<Ref>, key: OwnerKey, member: bool): set<Ref> {
    (refs - {Personal(key)}) + (if member then {Personal(key)} else {})
  }

  /** `record_personal_owners`, once the rows are gathered. */
  function RecordOwners(r: Registry, selected: map<OwnerKey, OwnerRecord>): Registry {
    r.(packages := map p | p in r.packages :: Rereferenced(r.packages[p], p, selected), owners := r.owners + selected)
  }

  /** What a target's release leaves of one reference set. */
  function Left(refs: set<Ref>, t: TargetKey, current: bool): set<Ref> { if current then refs else refs - {Target(t)} }

  /** References of one target dropped, and packages left without any, except those still installed. */
  function Released(packages: map<PackageId, set<Ref>>, t: TargetKey, current: set<PackageId>): map<PackageId, set<Ref>>
  {
    map p | p in packages && (p in current || Left(packages[p], t, false) != {}) :: Left(packages[p], t, p in current)
  }

  /** `upsert_target` up to the personal owners. */
  function Installed(r: Registry, t: TargetKey, current: set<PackageId>, rows: seq<Row>): Registry {
    var kept := Released(r.packages, t, current);
    r.(packages := kept + map p | p in current :: (if p in kept then kept[p] else {}) + {Target(t)},
       targets := r.targets[t := TargetRecord(current, rows)])
  }

  /** A receipt's rows without the selected owners (`_without_owners`). */
  function WithoutOwners(row: Row, gone: set<OwnerKey>): Option<Row> {
    if row.RepoRow? || row.owners !! gone then Some(row)
    else if row.owners <= gone then None
    else
      match PersonalSelections(row)
      case None => None
      case Some(names) =>
        var kept := map o | o in names && o !in gone :: names[o];
        var packages := Union(kept);
        Some(row.(owners := row.owners - gone, chosen := Some(kept), packages := packages,
                  bindings := map n | n in row.bindings && n in packages :: row.bindings[n]))
  }

  /** A target's receipt rows without the selected owners, in order; rows nobody is left on go. */
  function RowsWithout(rows: seq<Row>, gone: set<OwnerKey>): seq<Row> {
    if rows == [] then []
    else
      RowsWithout(rows[..|rows| - 1], gone)
      + match WithoutOwners(rows[|rows| - 1], gone) case None => [] case Some(row) => [row]
  }

  /** No affected row is malformed; otherwise the detach is refused. */
  predicate Detachable(r: Registry, gone: set<OwnerKey>) {
    forall t, i :: t in r.targets && 0 <= i < |r.targets[t].rows| ==> RowDetachable(r.targets[t].rows[i], gone)
  }

  predicate RowDetachable(row: Row, gone: set<OwnerKey>) {
    row.PersonalRow? && !(row.owners !! gone) ==> PersonalSelections(row).Some?
  }

  /** The registry edits of detaching personal owners: no package is dropped. */
  function DetachOwners(r: Registry, gone: set<OwnerKey>): Registry {
    Registry(map p | p in r.packages :: r.packages[p] - (set o | o in gone :: Personal(o)),
             map t | t in r.targets :: r.targets[t].(rows := RowsWithout(r.targets[t].rows, gone)),
             r.owners - gone)
  }

  /** `_updated_registry`. */
  function DetachTarget(r: Registry, t: TargetKey, rows: seq<Row>, remaining: bool): Registry {
    if remaining then
      if t in r.targets then r.(targets := r.targets[t := r.targets[t].(rows := rows)]) else r
    else r.(targets := r.targets - {t}, packages := Released(r.packages, t, {}))
  }

  // ----- the reference invariant -----

  /** An owner key is in a registered package's references exactly when the package is in the owner's recorded
      selection. */
  ghost predicate OwnerRefs(r: Registry) {
    forall p, o :: p in r.packages ==> (Personal(o) in r.packages[p] <==> o in r.owners && p in Ids(r.owners[o]))
  }

  ghost predicate TargetRefs(r: Registry) {
    forall p, t :: p in r.packages ==> (Target(t) in r.packages[p] <==> t in r.targets && p in r.targets[t].packages)
  }

  /** Everything selected or installed is registered. */
  ghost predicate Closed(r: Registry) {
    && (forall o :: o in r.owners ==> Ids(r.owners[o]) <= r.packages.Keys)
    && (forall t :: t in r.targets ==> r.targets[t].packages <= r.packages.Keys)
  }

  ghost predicate Inv(r: Registry) { OwnerRefs(r) && TargetRefs(r) && Closed(r) }

  /** The selected packages are all registered under the identities their bindings give them. */
  ghost predicate Registered(r: Registry, selected: map<OwnerKey, OwnerRecord>) {
    forall o :: o in selected ==> Ids(selected[o]) <= r.packages.Keys
  }

  lemma RereferencedMeaning(refs: set<Ref>, p: PackageId, selected: map<OwnerKey, OwnerRecord>)
    ensures forall t {:trigger Target(t)} :: Target(t) in Rereferenced(refs, p, selected) <==> Target(t) in refs
    ensures forall o {:trigger Personal(o)} :: Personal(o) in Rereferenced(refs, p, selected) <==>
              if o in selected then p in Ids(selected[o]) else Personal(o) in refs
  {
    hide Ids;
  }

  /** Recording owners keeps the invariant exactly when every selected package is registered. */
  lemma RecordKeepsInv(r: Registry, selected: map<OwnerKey, OwnerRecord>)
    requires Inv(r)
    ensures Inv(RecordOwners(r, selected)) <==> Registered(r, selected)
  {
    hide Ids, Rereferenced;
    var r' := RecordOwners(r, selected);
    assert r'.packages.Keys == r.packages.Keys;
    assert forall o :: o in selected ==> o in r'.owners && r'.owners[o] == selected[o];
    forall p | p in r.packages
      ensures forall t :: Target(t) in r'.packages[p] <==> Target(t) in r.packages[p]
      ensures forall o :: Personal(o) in r'.packages[p] <==> o in r'.owners && p in Ids(r'.owners[o])
    {
      RereferencedMeaning(r.packages[p], p, selected);
    }
    assert OwnerRefs(r') && TargetRefs(r');
    assert Closed(r') <==> Registered(r, selected);
  }

  lemma InstallKeepsInv(r: Registry, t: TargetKey, current: set<PackageId>, rows: seq<Row>)
    requires Inv(r)
    ensures Inv(Installed(r, t, current, rows))
  {
    hide Ids;
    var r' := Installed(r, t, current, rows);
    forall p, o | p in r'.packages
      ensures Personal(o) in r'.packages[p] <==> o in r'.owners && p in Ids(r'.owners[o])
    {
      assert p in r.packages ==> (Personal(o) in r.packages[p] <==> o in r.owners && p in Ids(r.owners[o]));
    }
    assert TargetRefs(r');
    forall o | o in r'.owners
      ensures Ids(r'.owners[o]) <= r'.packages.Keys
    {
      forall p | p in Ids(r.owners[o])
        ensures p in r'.packages
      {
        assert Personal(o) in r.packages[p] - {Target(t)};
      }
    }
    forall u | u in r'.targets
      ensures r'.targets[u].packages <= r'.packages.Keys
    {
      if u != t {
        forall p | p in r.targets[u].packages
          ensures p in r'.packages
        {
          assert Target(u) in r.packages[p] - {Target(t)};
        }
      }
    }
  }

  lemma DetachOwnersKeepsInv(r: Registry, gone: set<OwnerKey>)
    requires Inv(r)
    ensures Inv(DetachOwners(r, gone))
  {
    hide Ids, RowsWithout;
  }

  lemma DetachTargetKeepsInv(r: Registry, t: TargetKey, rows: seq<Row>, remaining: bool)
    requires Inv(r)
    ensures Inv(DetachTarget(r, t, rows, remaining))
  {
    hide Ids;
    var r' := DetachTarget(r, t, rows, remaining);
    if !remaining {
      forall o, p | o in r'.owners && p in Ids(r'.owners[o])
        ensures p in r'.packages
      {
        assert Personal(o) in r.packages[p] - {Target(t)};
      }
      forall u, p | u in r'.targets && p in r'.targets[u].packages
        ensures p in r'.packages
      {
        assert Target(u) in r.packages[p] - {Target(t)};
      }
    }
  }

  // ----- runs -----

  datatype Op =
    | Upsert(target: TargetKey, current: set<PackageId>, rows: seq<Row>, available: set<Name>)
    | DropOwners(gone: set<OwnerKey>)
    | DropTarget(target: TargetKey, rows: seq<Row>, remaining: bool)

  /** The saved registry after one operation; an upsert that raises saves nothing. */
  function Apply(r: Registry, op: Op): Registry {
    match op
    case Upsert(t, current, rows, available) =>
      (match Gather(rows, available)
       case None => r
       case Some(selected) => RecordOwners(Installed(r, t, current, rows), selected))
    case DropOwners(gone) => if Detachable(r, gone) then DetachOwners(r, gone) else r
    case DropTarget(t, rows, remaining) => DetachTarget(r, t, rows, remaining)
  }

  /** Every identity an upsert's owners select is registered by then. */
  ghost predicate SelectsRegistered(r: Registry, op: Op) {
    op.Upsert? && Gather(op.rows, op.available).Some? ==>
      Registered(Installed(r, op.target, op.current, op.rows), Gather(op.rows, op.available).value)
  }

  function After(ops: seq<Op>): Registry {
    if ops == [] then Registry(map[], map[], map[]) else Apply(After(ops[..|ops| - 1]), ops[|ops| - 1])
  }

  ghost predicate AllSelectRegistered(ops: seq<Op>) {
    forall i {:trigger ops[i]} :: 0 <= i < |ops| ==> SelectsRegistered(After(ops[..i]), ops[i])
  }

  /** Through any operations the invariant holds, and one operation breaks it exactly when it selects an
      unregistered package. */
  lemma ApplyKeepsInv(r: Registry, op: Op)
    requires Inv(r)
    ensures Inv(Apply(r, op)) <==> SelectsRegistered(r, op)
  {
    hide Inv, Registered, Installed, RecordOwners, DetachOwners, DetachTarget, Gather;
    match op
    case Upsert(t, current, rows, available) =>
      if Gather(rows, available).Some? {
        InstallKeepsInv(r, t, current, rows);
        RecordKeepsInv(Installed(r, t, current, rows), Gather(rows, available).value);
      }
    case DropOwners(gone) => DetachOwnersKeepsInv(r, gone);
    case DropTarget(t, rows, remaining) => DetachTargetKeepsInv(r, t, rows, remaining);
  }

  /** An owner key is in a package's references exactly when its recorded selection holds the package, after any run. */
  lemma {:induction false} RunKeepsInv(ops: seq<Op>)
    requires AllSelectRegistered(ops)
    ensures Inv(After(ops))
  {
    hide Apply, SelectsRegistered;
    if ops != [] {
      var n := |ops| - 1;
      var front := ops[..n];
      forall i {:trigger front[i]} | 0 <= i < n
        ensures SelectsRegistered(After(front[..i]), front[i])
      {
        assert ops[..i] == front[..i] && ops[i] == front[i];
      }
      RunKeepsInv(front);
      assert SelectsRegistered(After(ops[..n]), ops[n]);
      ApplyKeepsInv(After(front), ops[n]);
    }
  }

  /** What one operation releases: a target's own references, or those of the owners it replaces or detaches. */
  ghost predicate Releases(op: Op, ref: Ref) {
    match op
    case Upsert(t, _, rows, available) =>
      ref == Target(t) || (ref.Personal? && Gather(rows, available).Some? && ref.owner in Gather(rows, available).value)
    case DropOwners(gone) => ref.Personal? && ref.owner in gone
    case DropTarget(t, _, remaining) => !remaining && ref == Target(t)
  }

  /** Nobody else's reference is lost, so no package with a live reference is dropped from the registry. */
  lemma LiveReferencesStay(r: Registry, op: Op, p: PackageId, ref: Ref)
    requires p in r.packages && ref in r.packages[p] && !Releases(op, ref)
    ensures p in Apply(r, op).packages && ref in Apply(r, op).packages[p]
  {
    hide Ids, Gather;
    match op
    case Upsert(t, current, rows, available) =>
      if Gather(rows, available).Some? {
        var installed := Installed(r, t, current, rows);
        assert ref in r.packages[p] - {Target(t)};
        assert p in installed.packages && ref in installed.packages[p];
        RereferencedMeaning(installed.packages[p], p, Gather(rows, available).value);
      }
    case DropOwners(gone) =>
    case DropTarget(t, rows, remaining) =>
      if !remaining {
        assert ref in r.packages[p] - {Target(t)};
      }
  }

  // ----- what each operation leaves -----

  ghost predicate Holds(r: Registry, p: PackageId, ref: Ref) { p in r.packages && ref in r.packages[p] }

  /** Somebody but the target keeps the package alive. */
  ghost predicate KeptByOthers(r: Registry, p: PackageId, t: TargetKey) {
    exists ref :: Holds(r, p, ref) && ref != Target(t)
  }

  /** The package is registered after the operation. */
  ghost predicate RegisteredAfter(r: Registry, op: Op, p: PackageId) {
    match op
    case Upsert(t, current, _, _) => p in current || KeptByOthers(r, p, t)
    case DropOwners(_) => p in r.packages
    case DropTarget(t, _, remaining) => if remaining then p in r.packages else KeptByOthers(r, p, t)
  }

  /** The reference is held after an operation that goes through and selects these owners. */
  ghost predicate HeldAfter(r: Registry, op: Op, selected: map<OwnerKey, OwnerRecord>, p: PackageId, ref: Ref) {
    match op
    case Upsert(t, current, _, _) =>
      if ref == Target(t) then p in current
      else if ref.Personal? && ref.owner in selected then
        RegisteredAfter(r, op, p) && exists n ::
            n in selected[ref.owner].packages
            && p == if n in selected[ref.owner].bindings then selected[ref.owner].bindings[n] else n
      else Holds(r, p, ref)
    case DropOwners(gone) => Holds(r, p, ref) && !(ref.Personal? && ref.owner in gone)
    case DropTarget(t, _, remaining) => Holds(r, p, ref) && (remaining || ref != Target(t))
  }

  /** The operation goes through: its rows can be recorded, or no affected receipt row is malformed. */
  ghost predicate Succeeds(r: Registry, op: Op) {
    (op.Upsert? ==> Gather(op.rows, op.available).Some?) && (op.DropOwners? ==> Detachable(r, op.gone))
  }

  ghost function OwnersAfter(r: Registry, op: Op): map<OwnerKey, OwnerRecord>
    requires Succeeds(r, op)
  {
    match op
    case Upsert(_, _, rows, available) => r.owners + Gather(rows, available).value
    case DropOwners(gone) => r.owners - gone
    case DropTarget(_, _, _) => r.owners
  }

  /** Exactly what an operation registers, refers to and records; one that fails changes nothing. */
  lemma ApplyExact(r: Registry, op: Op)
    ensures !Succeeds(r, op) ==> Apply(r, op) == r
    ensures Succeeds(r, op) ==>
              var selected := if op.Upsert? then Gather(op.rows, op.available).value else map[];
              && Apply(r, op).owners == OwnersAfter(r, op)
              && (forall p :: p in Apply(r, op).packages <==> RegisteredAfter(r, op, p))
              && forall p, ref :: Holds(Apply(r, op), p, ref) <==> HeldAfter(r, op, selected, p, ref)
    ensures op.Upsert? && Succeeds(r, op) ==>
              Apply(r, op).targets == r.targets[op.target := TargetRecord(op.current, op.rows)]
    ensures op.DropOwners? && Succeeds(r, op) ==>
              && Apply(r, op).targets.Keys == r.targets.Keys
              && forall t :: t in r.targets ==>
                   Apply(r, op).targets[t] == r.targets[t].(rows := RowsWithout(r.targets[t].rows, op.gone))
    ensures op.DropTarget? ==>
              Apply(r, op).targets == if !op.remaining then r.targets - {op.target}
                                      else if op.target in r.targets then
                                        r.targets[op.target := r.targets[op.target].(rows := op.rows)]
                                      else r.targets
  {
    hide Gather, Detachable, RowsWithout;
    match op
    case Upsert(t, current, rows, available) =>
      if Gather(rows, available).Some? {
        UpsertExact(r, op);
      }
    case DropOwners(gone) =>
    case DropTarget(t, _, remaining) =>
      if !remaining {
        forall p
          ensures p in Released(r.packages, t, {}) <==> KeptByOthers(r, p, t)
        {
          OthersLeft(r, p, t);
        }
      }
  }

  lemma OthersLeft(r: Registry, p: PackageId, t: TargetKey)
    ensures KeptByOthers(r, p, t) <==> p in r.packages && Left(r.packages[p], t, false) != {}
  {
    if p in r.packages && r.packages[p] - {Target(t)} != {} {
      var ref :| ref in r.packages[p] - {Target(t)};
      assert Holds(r, p, ref);
    }
    if KeptByOthers(r, p, t) {
      var ref :| Holds(r, p, ref) && ref != Target(t);
      assert ref in r.packages[p] - {Target(t)};
    }
  }

  lemma UpsertExact(r: Registry, op: Op)
    requires op.Upsert? && Gather(op.rows, op.available).Some?
    ensures var selected, later := Gather(op.rows, op.available).value, Apply(r, op);
            && (forall p :: p in later.packages <==> RegisteredAfter(r, op, p))
            && forall p, ref :: Holds(later, p, ref) <==> HeldAfter(r, op, selected, p, ref)
  {
    hide Gather, Rereferenced;
    var selected, later := Gather(op.rows, op.available).value, Apply(r, op);
    var installed := Installed(r, op.target, op.current, op.rows);
    forall p
      ensures p in later.packages <==> RegisteredAfter(r, op, p)
      ensures forall ref :: Holds(installed, p, ref) <==>
                if ref == Target(op.target) then p in op.current else Holds(r, p, ref)
    {
      OthersLeft(r, p, op.target);
    }
    forall p, ref
      ensures Holds(later, p, ref) <==> HeldAfter(r, op, selected, p, ref)
    {
      if p in installed.packages {
        RereferencedMeaning(installed.packages[p], p, selected);
      }
    }
  }

  // ----- when references and selections agree -----

  /** A package the upsert registers anew is selected by no recorded owner it does not record again. */
  ghost predicate FreshUnselected(r: Registry, op: Op) {
    op.Upsert? && Gather(op.rows, op.available).Some? ==>
      forall p, o ::
        p in op.current && p !in r.packages && o in r.owners && o !in Gather(op.rows, op.available).value ==>
          p !in Ids(r.owners[o])
  }

  lemma InstalledRefs(r: Registry, t: TargetKey, current: set<PackageId>, rows: seq<Row>, p: PackageId, o: OwnerKey)
    requires p in Installed(r, t, current, rows).packages
    ensures Personal(o) in Installed(r, t, current, rows).packages[p] <==>
              p in r.packages && Personal(o) in r.packages[p]
    ensures p !in r.packages ==> p in current
  {
  }

  lemma UpsertKeepsOwnerRefs(r: Registry, op: Op)
    requires OwnerRefs(r) && op.Upsert? && Gather(op.rows, op.available).Some?
    ensures OwnerRefs(Apply(r, op)) <==> FreshUnselected(r, op)
  {
    hide Ids, Gather, Rereferenced, Released, Installed;
    var selected := Gather(op.rows, op.available).value;
    var before, after := Installed(r, op.target, op.current, op.rows), Apply(r, op);
    InstalledKeys(r, op.target, op.current, op.rows);
    forall p, o | p in after.packages
      ensures Personal(o) in after.packages[p] <==>
                if o in selected then p in Ids(selected[o]) else p in r.packages && Personal(o) in r.packages[p]
      ensures o in after.owners && p in Ids(after.owners[o]) <==>
                if o in selected then p in Ids(selected[o]) else o in r.owners && p in Ids(r.owners[o])
      ensures p !in r.packages ==> p in op.current
    {
      RereferencedMeaning(before.packages[p], p, selected);
      InstalledRefs(r, op.target, op.current, op.rows, p, o);
    }
    if OwnerRefs(after) {
      forall p, o | p in op.current && p !in r.packages && o in r.owners && o !in selected
        ensures p !in Ids(r.owners[o])
      {
        assert p in after.packages;
      }
    }
  }

  lemma InstalledKeys(r: Registry, t: TargetKey, current: set<PackageId>, rows: seq<Row>)
    ensures Installed(r, t, current, rows).owners == r.owners
    ensures forall p :: p in current ==> p in Installed(r, t, current, rows).packages
  {
  }

  /**
   * One operation keeps "referenced exactly when selected" exactly when it
   * registers no package anew that some untouched owner already selects.
   */
  lemma StepKeepsOwnerRefs(r: Registry, op: Op)
    requires OwnerRefs(r)
    ensures OwnerRefs(Apply(r, op)) <==> FreshUnselected(r, op)
  {
    hide Ids, Gather, RowsWithout, Detachable;
    match op
    case Upsert(_, _, rows, available) =>
      if Gather(rows, available).Some? {
        UpsertKeepsOwnerRefs(r, op);
      }
    case DropOwners(gone) =>
    case DropTarget(t, rows, remaining) =>
  }

  /** References and selections agree before, between and after all operations. */
  ghost predicate AlwaysExact(ops: seq<Op>) { forall i :: 0 <= i <= |ops| ==> OwnerRefs(After(ops[..i])) }

  ghost predicate AlwaysFresh(ops: seq<Op>) {
    forall i {:trigger ops[i]} :: 0 <= i < |ops| ==> FreshUnselected(After(ops[..i]), ops[i])
  }

  /** Over a whole run the references are exact throughout exactly when every step registers like that. */
  lemma {:induction false} RunKeepsOwnerRefs(ops: seq<Op>)
    ensures AlwaysExact(ops) <==> AlwaysFresh(ops)
  {
    if ops == [] {
      NothingRegistered();
      assert ops[..0] == [];
    } else {
      var front, last := ops[..|ops| - 1], ops[|ops| - 1];
      assert ops == front + [last];
      hide Apply, FreshUnselected, OwnerRefs, AlwaysExact, AlwaysFresh;
      RunKeepsOwnerRefs(front);
      ExactStep(front, last);
      FreshStep(front, last);
      ExactNow(front);
      if OwnerRefs(After(front)) {
        StepKeepsOwnerRefs(After(front), last);
      }
    }
  }

  lemma NothingRegistered()
    ensures OwnerRefs(After([]))
  {
  }

  lemma ExactNow(ops: seq<Op>)
    ensures AlwaysExact(ops) ==> OwnerRefs(After(ops))
  {
    hide OwnerRefs, After;
    assert ops[..|ops|] == ops;
  }

  lemma ExactStep(ops: seq<Op>, op: Op)
    ensures AlwaysExact(ops + [op]) <==> AlwaysExact(ops) && OwnerRefs(After(ops + [op]))
  {
    hide OwnerRefs, After;
    var more := ops + [op];
    assert more[..|more|] == more;
    assert forall i :: 0 <= i <= |ops| ==> more[..i] == ops[..i];
  }

  lemma FreshStep(ops: seq<Op>, op: Op)
    ensures AlwaysFresh(ops + [op]) <==> AlwaysFresh(ops) && FreshUnselected(After(ops), op)
    ensures After(ops + [op]) == Apply(After(ops), op)
  {
    hide FreshUnselected, Apply;
    var more := ops + [op];
    assert more[..|ops|] == ops && more[|ops|] == op;
    if AlwaysFresh(more) {
      forall i {:trigger ops[i]} | 0 <= i < |ops|
        ensures FreshUnselected(After(ops[..i]), ops[i])
      {
        assert more[..i] == ops[..i] && more[i] == ops[i];
      }
    }
    if AlwaysFresh(ops) && FreshUnselected(After(ops), op) {
      forall i {:trigger more[i]} | 0 <= i < |more|
        ensures FreshUnselected(After(more[..i]), more[i])
      {
        if i < |ops| {
          assert more[..i] == ops[..i] && more[i] == ops[i];
        }
      }
    }
  }

  // ----- a run that breaks it -----

  /** An installation that selects "skill" under an external identity nobody registered. */
  function Selecting(t: TargetKey, o: OwnerKey, id: PackageId): Op {
    Upsert(t, {"skill"}, [PersonalRow("path", Symlink, {o}, {"skill"}, None, map["skill" := id])], {"skill"})
  }

  function Registering(t: TargetKey, id: PackageId): Op { Upsert(t, {id}, [], {"skill"}) }

  lemma SelectingGathers(t: TargetKey, o: OwnerKey, id: PackageId)
    ensures Gather(Selecting(t, o, id).rows, {"skill"})
         == Some(map[o := OwnerRecord({"skill"}, map["skill" := id], {"path"}, Symlink)])
  {
    var rows := Selecting(t, o, id).rows;
    var row := rows[0];
    assert rows[..0] == [] && Gather(rows[..0], {"skill"}) == Some(map[]);
    var names := PersonalSelections(row).value;
    assert names == map[o := {"skill"}];
    var record := OwnerRecord({"skill"}, map["skill" := id], {"path"}, Symlink);
    var extended := Extend(None, row, {"skill"}).value;
    assert "skill" in extended.bindings && extended.bindings == map["skill" := id];
    assert extended == record;
    var added := AddRow(map[], row, {"skill"});
    assert added.Some? && o in added.value && added.value[o] == record;
    assert added.value == map[o := record];
  }

  /**
   * Three operations `upsert_target` and a target detach accept: an owner
   * selects an identity nobody registered; another target registers it, and the
   * owner gets no reference; that target goes, and the selected package with it.
   */
  lemma UnregisteredSelectionIsDropped(o: OwnerKey, t: TargetKey, u: TargetKey, id: PackageId)
    requires t != u && id != "skill"
    ensures var ops := [Selecting(t, o, id), Registering(u, id), DropTarget(u, [], false)];
            && !OwnerRefs(After(ops[..2]))
            && o in After(ops).owners && id in Ids(After(ops).owners[o]) && id !in After(ops).packages
  {
    hide Apply, OwnerRefs, Ids;
    var a, b, c := Selecting(t, o, id), Registering(u, id), DropTarget(u, [], false);
    var ops := [a, b, c];
    Steps(a, b, c);
    var first := SelectingOnly(t, o, id);
    RegisteringOnly(first, u, id);
    DroppingOnly(Apply(first, b), u, id);
    NotReferenced(Apply(first, b), u, o, id);
  }

  lemma Steps(a: Op, b: Op, c: Op)
    ensures var ops := [a, b, c];
            && After(ops[..2]) == Apply(Apply(After([]), a), b)
            && After(ops) == Apply(Apply(Apply(After([]), a), b), c)
  {
    hide Apply;
    assert [a, b, c][..2] == [a, b] && [a, b][..1] == [a] && [a][..0] == [];
  }

  lemma SelectingOnly(t: TargetKey, o: OwnerKey, id: PackageId) returns (first: Registry)
    requires id != "skill"
    ensures first == Apply(After([]), Selecting(t, o, id))
    ensures id !in first.packages && o in first.owners && id in Ids(first.owners[o])
  {
    SelectingGathers(t, o, id);
    hide Gather;
    first := Apply(After([]), Selecting(t, o, id));
    assert "skill" in first.owners[o].packages;
  }

  lemma NotReferenced(r: Registry, u: TargetKey, o: OwnerKey, id: PackageId)
    requires id in r.packages && r.packages[id] == {Target(u)} && o in r.owners && id in Ids(r.owners[o])
    ensures !OwnerRefs(r)
  {
    hide Ids;
    assert Personal(o) !in r.packages[id];
  }

  lemma RegisteringOnly(r: Registry, u: TargetKey, id: PackageId)
    requires id !in r.packages
    ensures var next := Apply(r, Registering(u, id));
            next.owners == r.owners && id in next.packages && next.packages[id] == {Target(u)}
  {
    assert Gather([], {"skill"}) == Some(map[]);
    hide Ids;
  }

  lemma DroppingOnly(r: Registry, u: TargetKey, id: PackageId)
    requires id in r.packages && r.packages[id] == {Target(u)}
    ensures id !in Apply(r, DropTarget(u, [], false)).packages
    ensures Apply(r, DropTarget(u, [], false)).owners == r.owners
  {
  }

  // ----- receipts of several detached owners -----

  /** A personal row as the writers produce it: at least one owner, and a union that matches. */
  predicate WellFormed(row: Row) {
    row.PersonalRow? ==>
      row.owners != {} && PersonalSelections(row).Some?
      && forall n :: n in row.bindings ==> n in row.packages
  }

  lemma WithoutOwnersShape(row: Row, gone: set<OwnerKey>)
    requires WellFormed(row)
    ensures WithoutOwners(row, gone).None? <==> row.PersonalRow? && row.owners <= gone
    ensures WithoutOwners(row, gone).Some? ==>
              var kept := WithoutOwners(row, gone).value;
              && WellFormed(kept) && kept.path == row.path && kept.mode == row.mode
              && (row.RepoRow? ==> kept == row) && (row.PersonalRow? ==> kept.PersonalRow?)
              && (kept.PersonalRow? ==>
                    && kept.owners == row.owners - gone
                    && (forall n ::
                          Lookup(kept.bindings, n) == if n in kept.packages then Lookup(row.bindings, n) else None)
                    && forall o :: o in kept.owners ==>
                         Lookup(PersonalSelections(kept).value, o) == Lookup(PersonalSelections(row).value, o))
  {
    if row.PersonalRow? && !(row.owners !! gone) && !(row.owners <= gone) {
      var names := PersonalSelections(row).value;
      var kept := map o | o in names && o !in gone :: names[o];
      assert names.Keys == row.owners;
      assert kept.Keys == row.owners - gone;
      var o :| o in row.owners && o !in gone;
      assert o in row.owners - gone;
    }
  }

  function Then(row: Option<Row>, gone: set<OwnerKey>): Option<Row> {
    if row.None? then None else WithoutOwners(row.value, gone)
  }

  /** Detaching owners in two steps leaves the receipt row that detaching them at once leaves, so the order
      does not matter. */
  lemma DetachInSteps(row: Row, a: set<OwnerKey>, b: set<OwnerKey>)
    requires WellFormed(row)
    ensures Then(WithoutOwners(row, a), b) == WithoutOwners(row, a + b)
  {
    if row.PersonalRow? {
      if row.owners !! a {
        SameEffect(row, b, a + b);
      } else if row.owners <= a {
        var o :| o in row.owners && o in a;
        assert o in a + b;
      } else {
        StepsKeep(row, a, b);
      }
    }
  }

  /** Only the detached owners the row lists matter. */
  lemma SameEffect(row: Row, a: set<OwnerKey>, b: set<OwnerKey>)
    requires row.PersonalRow? && row.owners * a == row.owners * b
    requires PersonalSelections(row).Some? && PersonalSelections(row).value.Keys == row.owners
    ensures WithoutOwners(row, a) == WithoutOwners(row, b)
  {
    var names := PersonalSelections(row).value;
    assert forall o :: o in row.owners ==> (o in row.owners * a <==> o in a) && (o in row.owners * b <==> o in b);
    assert row.owners - a == row.owners - b;
    assert (map o | o in names && o !in a :: names[o]) == (map o | o in names && o !in b :: names[o]);
  }

  lemma StepsKeep(row: Row, a: set<OwnerKey>, b: set<OwnerKey>)
    requires WellFormed(row) && row.PersonalRow? && !(row.owners !! a) && !(row.owners <= a)
    ensures Then(WithoutOwners(row, a), b) == WithoutOwners(row, a + b)
  {
    WithoutOwnersShape(row, a);
    var names, first := PersonalSelections(row).value, WithoutOwners(row, a).value;
    var kept := map o | o in names && o !in a :: names[o];
    assert PersonalSelections(first) == Some(kept);
    if row.owners <= a + b {
      assert first.owners <= b;
      var o :| o in row.owners && o !in a;
      assert o in first.owners;
    } else if first.owners !! b {
      assert row.owners * a == row.owners * (a + b) by {
        assert forall o :: o in row.owners && o !in a ==> o in first.owners;
      }
      SameEffect(row, a, a + b);
    } else {
      TwoRestrictions(names, a, b, row.bindings);
      assert first.owners - b == row.owners - (a + b);
      var o :| o in row.owners && o !in a + b;
      assert o in first.owners && o !in b;
    }
  }

  /** Restricting selections and bindings twice is restricting them once. */
  lemma TwoRestrictions(names: map<OwnerKey, set<Name>>, a: set<OwnerKey>, b: set<OwnerKey>,
                        bindings: map<Name, PackageId>)
    ensures var kept := map o | o in names && o !in a :: names[o];
            var both := map o | o in names && o !in a + b :: names[o];
            var first := map n | n in bindings && n in Union(kept) :: bindings[n];
            && (map o | o in kept && o !in b :: kept[o]) == both
            && (map n | n in first && n in Union(both) :: first[n])
                == (map n | n in bindings && n in Union(both) :: bindings[n])
  {
    var kept := map o | o in names && o !in a :: names[o];
    var both := map o | o in names && o !in a + b :: names[o];
    forall n | n in Union(both)
      ensures n in Union(kept)
    {
      var o :| o in both && n in both[o];
      assert n in kept[o];
    }
  }

  lemma {:induction false} RowsInSteps(rows: seq<Row>, a: set<OwnerKey>, b: set<OwnerKey>)
    requires forall i :: 0 <= i < |rows| ==> WellFormed(rows[i])
    ensures RowsWithout(RowsWithout(rows, a), b) == RowsWithout(rows, a + b)
  {
    hide WithoutOwners, WellFormed;
    if rows != [] {
      var front, last := rows[..|rows| - 1], rows[|rows| - 1];
      RowsInSteps(front, a, b);
      DetachInSteps(last, a, b);
      match WithoutOwners(last, a)
      case Some(row) =>
        var stepped := RowsWithout(front, a) + [row];
        assert stepped[..|stepped| - 1] == RowsWithout(front, a);
      case None =>
        assert RowsWithout(rows, a) == RowsWithout(front, a);
    }
  }

  /** Every row is taken on its own, in order. */
  lemma {:induction false} RowsWithoutConcat(a: seq<Row>, b: seq<Row>, gone: set<OwnerKey>)
    ensures RowsWithout(a + b, gone) == RowsWithout(a, gone) + RowsWithout(b, gone)
  {
    if b == [] {
      assert a + b == a;
    } else {
      var front, last := b[..|b| - 1], b[|b| - 1];
      assert (a + b)[..|a + b| - 1] == a + front && (a + b)[|a + b| - 1] == last;
      hide WithoutOwners;
      RowsWithoutConcat(a, front, gone);
    }
  }

  lemma OneRowWithout(row: Row, gone: set<OwnerKey>)
    ensures RowsWithout([row], gone) == match WithoutOwners(row, gone) case None => [] case Some(r) => [r]
  {
    hide WithoutOwners;
    assert [row][..0] == [] && RowsWithout([row][..0], gone) == [];
  }

  ghost predicate RowsWellFormed(r: Registry) {
    forall t, i :: t in r.targets && 0 <= i < |r.targets[t].rows| ==> WellFormed(r.targets[t].rows[i])
  }

  /** The registry does not remember in which order owners were detached. */
  lemma DetachOwnersInSteps(r: Registry, a: set<OwnerKey>, b: set<OwnerKey>)
    requires RowsWellFormed(r)
    ensures DetachOwners(DetachOwners(r, a), b) == DetachOwners(r, a + b)
    ensures DetachOwners(DetachOwners(r, a), b) == DetachOwners(DetachOwners(r, b), a)
  {
    StepsAreOne(r, a, b);
    StepsAreOne(r, b, a);
    assert a + b == b + a;
  }

  lemma StepsAreOne(r: Registry, a: set<OwnerKey>, b: set<OwnerKey>)
    requires RowsWellFormed(r)
    ensures DetachOwners(DetachOwners(r, a), b) == DetachOwners(r, a + b)
  {
    hide WellFormed, RowsWithout;
    var x, y := DetachOwners(DetachOwners(r, a), b), DetachOwners(r, a + b);
    forall t | t in r.targets
      ensures x.targets[t] == y.targets[t]
    {
      RowsInSteps(r.targets[t].rows, a, b);
    }
    assert x.targets == y.targets;
    forall p | p in r.packages
      ensures x.packages[p] == y.packages[p]
    {
    }
    assert x.packages == y.packages;
    assert x.owners == y.owners;
  }

  // ----- the registry in memory, updated in place -----

  /** A loaded registry; a caller saves it once the whole operation succeeded. */
  class PackageRegistry {
    var packages: map<PackageId, set<Ref>>
    var targets: map<TargetKey, TargetRecord>
    var owners: map<OwnerKey, OwnerRecord>

    constructor (r: Registry)
      ensures Value() == r
    {
      packages, targets, owners := r.packages, r.targets, r.owners;
    }

    function Value(): Registry
      reads this
    {
      Registry(packages, targets, owners)
    }

    /** One owner's key leaves every reference set and joins those of its identities. */
    method Rereference(key: OwnerKey, ids: set<PackageId>)
      modifies this`packages
      ensures packages.Keys == old(packages).Keys
      ensures forall p :: p in packages ==> packages[p] == Rekeyed(old(packages)[p], key, p in ids)
    {
      hide Rekeyed;
      var todo := packages.Keys;
      while todo != {}
        invariant todo <= packages.Keys == old(packages).Keys
        invariant forall p :: p in packages ==>
                    packages[p] == if p in todo then old(packages)[p] else Rekeyed(old(packages)[p], key, p in ids)
        decreases todo
      {
        var p :| p in todo;
        packages := packages[p := Rekeyed(packages[p], key, p in ids)];
        todo := todo - {p};
      }
    }

    /** `record_personal_owners`. */
    method RecordPersonalOwners(rows: seq<Row>, available: set<Name>) returns (ok: bool)
      modifies this
      ensures ok <==> Gather(rows, available).Some?
      ensures Value() == if ok then RecordOwners(old(Value()), Gather(rows, available).value) else old(Value())
    {
      hide Gather, AddRow, Ids, Rereferenced;
      var selected := GatherRows(rows, available);
      if selected.None? {
        return false;
      }
      RecordAll(selected.value);
      ok := true;
    }

    method RecordAll(selected: map<OwnerKey, OwnerRecord>)
      modifies this
      ensures Value() == RecordOwners(old(Value()), selected)
    {
      hide Ids, Rereferenced, Rekeyed, RecordOwners;
      ghost var was := packages;
      var todo, done: map<OwnerKey, OwnerRecord> := selected.Keys, map[];
      NothingRereferenced(packages);
      while todo != {}
        invariant todo <= selected.Keys && done.Keys == selected.Keys - todo
        invariant forall o :: o in done ==> done[o] == selected[o]
        invariant packages.Keys == was.Keys
        invariant forall p :: p in packages ==> packages[p] == Rereferenced(was[p], p, done)
        invariant targets == old(targets) && owners == old(owners) + done
        decreases todo
      {
        var key :| key in todo;
        var record := selected[key];
        ghost var before := packages;
        Rereference(key, Ids(record));
        AllMore(was, before, packages, done, key, record);
        owners := owners[key := record];
        PlusOne(old(owners), done, key, record);
        done := done[key := record];
        todo := todo - {key};
      }
      assert done == selected;
      RecordedAll(old(Value()), selected, packages);
    }

    /** `upsert_target`; a registry it fails on is not saved. */
    method UpsertTarget(t: TargetKey, current: set<PackageId>, rows: seq<Row>, available: set<Name>) returns (ok: bool)
      modifies this
      ensures ok <==> Gather(rows, available).Some?
      ensures ok ==> Value() == Apply(old(Value()), Upsert(t, current, rows, available))
    {
      hide Gather, Released, RecordOwners;
      Release(t, current);
      targets := targets[t := TargetRecord(current, rows)];
      AddTarget(t, current);
      ok := RecordPersonalOwners(rows, available);
    }

    /** Every current package is registered and refers to the target. */
    method AddTarget(t: TargetKey, current: set<PackageId>)
      modifies this`packages
      ensures packages == old(packages) + map p | p in current :: (if p in old(packages) then old(packages)[p] else {})
                + {Target(t)}
    {
      ghost var was := packages;
      var todo := current;
      while todo != {}
        invariant todo <= current && packages.Keys == was.Keys + (current - todo)
        invariant forall p :: p in packages && (p !in current || p in todo) ==> packages[p] == was[p]
        invariant forall p :: p in current && p !in todo ==>
                    packages[p] == (if p in was then was[p] else {}) + {Target(t)}
        decreases todo
      {
        var p :| p in todo;
        var refs := if p in packages then packages[p] else {};
        packages := packages[p := refs + {Target(t)}];
        todo := todo - {p};
      }
    }

    /** Drops a target's references, and every package left without one that is not in `current`. */
    method Release(t: TargetKey, current: set<PackageId>)
      modifies this`packages
      ensures packages == Released(old(packages), t, current)
    {
      hide Left;
      ghost var was := packages;
      CurrentLeft(was, t);
      var todo := packages.Keys;
      while todo != {}
        invariant todo <= packages.Keys <= was.Keys
        invariant forall p :: p in packages ==>
                    packages[p] == if p in todo then was[p] else Left(was[p], t, p in current)
        invariant forall p :: p in was && p !in todo ==>
                    (p in packages <==> p in current || Left(was[p], t, false) != {})
        decreases todo
      {
        var p :| p in todo;
        if p !in current {
          var refs := Left(packages[p], t, false);
          packages := if refs != {} then packages[p := refs] else packages - {p};
        }
        todo := todo - {p};
      }
    }

    /** `_updated_registry`. */
    method Detach(t: TargetKey, rows: seq<Row>, remaining: bool)
      modifies this
      ensures Value() == Apply(old(Value()), DropTarget(t, rows, remaining))
    {
      if remaining {
        if t in targets {
          targets := targets[t := targets[t].(rows := rows)];
        }
      } else {
        targets := targets - {t};
        Release(t, {});
      }
    }

    /** The registry edits of `_plan` in a personal detach. */
    method DetachPersonal(gone: set<OwnerKey>) returns (ok: bool)
      modifies this
      ensures ok <==> Detachable(old(Value()), gone)
      ensures Value() == Apply(old(Value()), DropOwners(gone))
    {
      hide RowDetachable, RowsWithout;
      if !Detachable(Value(), gone) {
        return false;
      }
      DetachRows(gone);
      owners := owners - gone;
      DropRefs(gone);
      ok := true;
    }

    method DetachRows(gone: set<OwnerKey>)
      modifies this`targets
      ensures targets == map t | t in old(targets) :: old(targets)[t].(rows := RowsWithout(old(targets)[t].rows, gone))
    {
      hide RowsWithout;
      var todo := targets.Keys;
      while todo != {}
        invariant todo <= targets.Keys == old(targets).Keys
        invariant forall t :: t in targets ==>
                    targets[t] == if t in todo then old(targets)[t]
                                  else old(targets)[t].(rows := RowsWithout(old(targets)[t].rows, gone))
        decreases todo
      {
        var t :| t in todo;
        var rows := KeepRows(targets[t].rows, gone);
        targets := targets[t := targets[t].(rows := rows)];
        todo := todo - {t};
      }
    }

    method DropRefs(gone: set<OwnerKey>)
      modifies this`packages
      ensures packages == map p | p in old(packages) :: old(packages)[p] - (set o | o in gone :: Personal(o))
    {
      var todo := packages.Keys;
      while todo != {}
        invariant todo <= packages.Keys == old(packages).Keys
        invariant forall p :: p in packages ==>
                    packages[p] == if p in todo then old(packages)[p]
                                   else old(packages)[p] - (set o | o in gone :: Personal(o))
        decreases todo
      {
        var p :| p in todo;
        packages := packages[p := set ref | ref in packages[p] && !(ref.Personal? && ref.owner in gone)];
        todo := todo - {p};
      }
    }
  }

  /** `_without_owners`. */
  method KeepRows(rows: seq<Row>, gone: set<OwnerKey>) returns (kept: seq<Row>)
    ensures kept == RowsWithout(rows, gone)
  {
    hide WithoutOwners;
    kept := [];
    for i := 0 to |rows|
      invariant kept == RowsWithout(rows[..i], gone)
    {
      assert rows[..i + 1][..i] == rows[..i];
      var row := WithoutOwners(rows[i], gone);
      kept := kept + match row case None => [] case Some(r) => [r];
    }
    assert rows[..|rows|] == rows;
  }

  /** The records all rows ask for, row by row. */
  method GatherRows(rows: seq<Row>, available: set<Name>) returns (selected: Option<map<OwnerKey, OwnerRecord>>)
    ensures selected == Gather(rows, available)
  {
    hide AddRow;
    var found: map<OwnerKey, OwnerRecord> := map[];
    for i := 0 to |rows|
      invariant Gather(rows[..i], available) == Some(found)
    {
      assert rows[..i + 1][..i] == rows[..i];
      var next := AddRow(found, rows[i], available);
      if next.None? {
        GatherStops(rows, available, i + 1);
        return None;
      }
      found := next.value;
    }
    assert rows[..|rows|] == rows;
    selected := Some(found);
  }

  lemma {:induction false} GatherStops(rows: seq<Row>, available: set<Name>, i: nat)
    requires i <= |rows| && Gather(rows[..i], available).None?
    ensures Gather(rows, available).None?
    decreases |rows|
  {
    if i == |rows| {
      assert rows[..i] == rows;
    } else {
      assert rows[..|rows| - 1][..i] == rows[..i];
      GatherStops(rows[..|rows| - 1], available, i);
    }
  }

  lemma NothingRereferenced(packages: map<PackageId, set<Ref>>)
    ensures forall p :: p in packages ==> packages[p] == Rereferenced(packages[p], p, map[])
  {
  }

  lemma CurrentLeft(packages: map<PackageId, set<Ref>>, t: TargetKey)
    ensures forall p :: p in packages ==> Left(packages[p], t, true) == packages[p]
  {
  }

  lemma PlusOne(m: map<OwnerKey, OwnerRecord>, done: map<OwnerKey, OwnerRecord>, key: OwnerKey, record: OwnerRecord)
    ensures (m + done)[key := record] == m + done[key := record]
  {
  }

  lemma RecordedAll(r: Registry, selected: map<OwnerKey, OwnerRecord>, packages: map<PackageId, set<Ref>>)
    requires packages.Keys == r.packages.Keys
    requires forall p :: p in packages ==> packages[p] == Rereferenced(r.packages[p], p, selected)
    ensures Registry(packages, r.targets, r.owners + selected) == RecordOwners(r, selected)
  {
    hide Rereferenced;
  }

  lemma AllMore(was: map<PackageId, set<Ref>>, now: map<PackageId, set<Ref>>, later: map<PackageId, set<Ref>>,
                done: map<OwnerKey, OwnerRecord>, key: OwnerKey, record: OwnerRecord)
    requires key !in done && was.Keys == now.Keys == later.Keys
    requires forall p :: p in now ==> now[p] == Rereferenced(was[p], p, done)
    requires forall p :: p in later ==> later[p] == Rekeyed(now[p], key, p in Ids(record))
    ensures forall p :: p in later ==> later[p] == Rereferenced(was[p], p, done[key := record])
  {
    hide Ids, Rereferenced, Rekeyed;
    forall p | p in later
      ensures later[p] == Rereferenced(was[p], p, done[key := record])
    {
      OneMore(was[p], p, done, key, record);
    }
  }

  lemma OneMore(refs: set<Ref>, p: PackageId, done: map<OwnerKey, OwnerRecord>, key: OwnerKey, record: OwnerRecord)
    requires key !in done
    ensures Rereferenced(refs, p, done[key := record])
         == Rekeyed(Rereferenced(refs, p, done), key, p in Ids(record))
  {
    hide Ids;
  }

  // ----- pruning the package library -----

  datatype Kind = ManagedPackage | CustomPackage

  predicate BackupName(name: Name) { name != "" && name[0] == '.' && Contains(name, ".localsetup-backup-") }

  /** Names pruning never looks at. */
  predicate Reserved(name: Name) { ".localsetup-" <= name || BackupName(name) }

  /** `_prune_unreferenced_managed_packages`: which library entries go. */
  predicate Prunable(library: map<Name, Kind>, r: Registry, name: Name)
    requires name in library
  {
    !Reserved(name) && RefsOf(r, name) == {} && library[name] == ManagedPackage
  }

  method Prune(library: map<Name, Kind>, r: Registry) returns (kept: map<Name, Kind>, removed: seq<Name>)
    ensures kept == map n | n in library && !Prunable(library, r, n) :: library[n]
    ensures Sorted(Before, removed) && forall n :: n in removed <==> n in library && Prunable(library, r, n)
  {
    hide Before, Reserved, RefsOf, Total;
    BeforeTotal();
    var names := SortedList(Before, library.Keys);
    removed := [];
    for i := 0 to |names|
      invariant Sorted(Before, removed) && forall n :: n in removed ==>
                  n in names[..i] && n in library && Prunable(library, r, n)
      invariant forall k :: 0 <= k < i && Prunable(library, r, names[k]) ==> names[k] in removed
    {
      var name := names[i];
      assert name in names && name in library;
      if !Reserved(name) && RefsOf(r, name) == {} && library[name] == ManagedPackage {
        forall n | n in removed
          ensures Before(n, name)
        {
          var k :| 0 <= k < i && names[k] == n;
        }
        removed := removed + [name];
      }
    }
    kept := map n | n in library && n !in removed :: library[n];
  }

  /** Pruning never looks at the tool's own names or at backups, never takes a custom package and never a referenced
      one; everything else in the library goes. */
  lemma PrunableMeans(library: map<Name, Kind>, r: Registry, n: Name)
    requires n in library
    ensures Prunable(library, r, n) <==>
              && library[n].ManagedPackage? && !(".localsetup-" <= n) && (forall ref :: !Holds(r, n, ref))
              && !(n != "" && n[0] == '.' && exists k :: ContainsAt(n, ".localsetup-backup-", k))
  {
    assert forall ref :: ref in RefsOf(r, n) <==> Holds(r, n, ref);
    assert RefsOf(r, n) == {} <==> forall ref :: ref !in RefsOf(r, n);
  }

  /** A library entry somebody still selects can be pruned exactly when it is not registered at all. */
  lemma SelectedIsNotPruned(r: Registry, library: map<Name, Kind>, n: Name)
    requires OwnerRefs(r) && TargetRefs(r) && n in library
    requires (exists o :: o in r.owners && n in Ids(r.owners[o]))
               || (exists t :: t in r.targets && n in r.targets[t].packages)
    ensures Prunable(library, r, n) <==> n !in r.packages && !Reserved(n) && library[n] == ManagedPackage
    ensures Closed(r) ==> !Prunable(library, r, n)
  {
    hide Ids, Reserved;
    if o :| o in r.owners && n in Ids(r.owners[o]) {
      assert n in r.packages ==> Personal(o) in r.packages[n];
    } else {
      var t :| t in r.targets && n in r.targets[t].packages;
      assert n in r.packages ==> Target(t) in r.packages[n];
    }
  }
}
