/** Adapter directories shared by several owners (ls/core/personal_adapter.py, personal_detach.py). */
module PersonalAdapters {
  import opened Wrappers
  import opened Ordering
  import opened PackageRegistries

  /** A directory entry: a link to the package's library source, a real copy, or anything else. */
  datatype Entry = Link | Copy(managed: bool) | Other

  datatype Marker = Marker(packages: set<Name>, mode: Mode)

  datatype Adapter = Adapter(entries: map<Name, Entry>, marker: Option<Marker>)

  datatype World = World(registry: Registry, adapters: map<Path, Adapter>)

  function AdapterAt(w: World, p: Path): Adapter {
    if p in w.adapters then w.adapters[p] else Adapter(map[], None)
  }

  /** `managed_entry`: a copy counts only under a portable marker. */
  predicate Managed(a: Adapter, n: Name) {
    && n in a.entries
    && (a.entries[n].Link? || (a.entries[n] == Copy(true) && a.marker.Some? && a.marker.value.mode == Portable))
  }

  function Marked(a: Adapter): set<Name> { if a.marker.Some? then a.marker.value.packages else {} }

  function Made(mode: Mode): Entry { if mode == Portable then Copy(true) else Link }

  // ----- writing one directory -----

  /** A wanted name is taken by something the tool does not manage. */
  predicate Collides(a: Adapter, names: set<Name>) { exists n :: n in names && n in a.entries && !Managed(a, n) }

  /** What a write leaves under one name. */
  function Placed(a: Adapter, names: set<Name>, mode: Mode, n: Name): Option<Entry> {
    if n in names then Some(Made(mode))
    else if n in Marked(a) && Managed(a, n) then None
    else Lookup(a.entries, n)
  }

  /** Every one of the names stands there in the mode's own form: a copy the tool made, or a link to the library. */
  ghost predicate Formed(a: Adapter, names: set<Name>, mode: Mode) {
    forall n :: n in names ==>
      n in a.entries && a.entries[n] == match mode { case Portable => Copy(true) case Symlink => Link }
  }

  /** The name is free, or taken by a link to the library or by a copy of a directory marked portable. */
  ghost predicate Open(a: Adapter, n: Name) {
    n in a.entries && a.entries[n] != Link ==>
      a.entries[n] == Copy(true) && a.marker.Some? && a.marker.value.mode == Portable
  }

  lemma CollidesMeans(a: Adapter, names: set<Name>)
    ensures !Collides(a, names) <==> forall n :: n in names ==> Open(a, n)
  {
  }

  /** The directory after `write_entries`. */
  function Written(a: Adapter, names: set<Name>, mode: Mode): Adapter {
    Adapter(map n | n in a.entries.Keys + names && Placed(a, names, mode, n).Some? :: Placed(a, names, mode, n).value,
            Some(Marker(names, mode)))
  }

  /** One adapter directory on disk. */
  class AdapterDirectory {
    var entries: map<Name, Entry>
    var marker: Option<Marker>

    constructor (a: Adapter)
      ensures Value() == a
    {
      entries, marker := a.entries, a.marker;
    }

    function Value(): Adapter
      reads this
    {
      Adapter(entries, marker)
    }

    /** `write_entries`: entry by entry, then the marker; it stops where a wanted name is taken. */
    method WriteEntries(names: set<Name>, mode: Mode, library: set<Name>) returns (ok: bool)
      modifies this
      ensures ok <==> names <= library && !Collides(old(Value()), names)
      ensures ok <==> names <= library && forall n :: n in names ==> Open(old(Value()), n)
      ensures ok ==> Value() == Written(old(Value()), names, mode)
      ensures ok ==> Formed(Value(), names, mode)
      ensures !ok ==> marker == old(marker)
    {
      hide Before, Placed, Managed, Open;
      CollidesMeans(Value(), names);
      if !(names <= library) {
        return false;
      }
      BeforeTotal();
      var before := Value();
      var order := SortedList(Before, Marked(before) + names);
      for i := 0 to |order|
        invariant marker == old(marker)
        invariant forall n :: Lookup(entries, n) ==
                    if n in order[..i] then Placed(before, names, mode, n) else Lookup(before.entries, n)
        invariant forall k :: 0 <= k < i && order[k] in names && order[k] in before.entries ==>
                    Managed(before, order[k])
      {
        var name := order[i];
        NotEarlier(order, i);
        assert name in order && Lookup(entries, name) == Lookup(before.entries, name);
        var written := WriteEntry(before, name, names, mode);
        if !written {
          return false;
        }
      }
      assert order[..|order|] == order;
      assert forall n :: n in names ==> n in order;
      marker := Some(Marker(names, mode));
      ok := true;
      WrittenPointwise(before, names, mode, order, entries);
      WrittenForms(before, names, mode);
    }

    /** One round of the loop: a managed entry goes, a wanted one is made anew. */
    method WriteEntry(before: Adapter, name: Name, names: set<Name>, mode: Mode) returns (ok: bool)
      requires name in Marked(before) + names && Lookup(entries, name) == Lookup(before.entries, name)
      modifies this`entries
      ensures ok <==> name in names && name in before.entries ==> Managed(before, name)
      ensures ok ==> Lookup(entries, name) == Placed(before, names, mode, name)
      ensures forall n :: n != name ==> Lookup(entries, n) == Lookup(old(entries), n)
    {
      var managed := Managed(before, name);
      assert name in entries <==> name in before.entries;
      if managed {
        entries := entries - {name};
      }
      if name in names {
        if name in entries {
          return false;
        }
        entries := entries[name := Made(mode)];
      }
      ok := true;
    }
  }

  /** A write leaves every wanted name in the mode's form. */
  lemma WrittenForms(a: Adapter, names: set<Name>, mode: Mode)
    ensures Formed(Written(a, names, mode), names, mode)
  {
  }

  lemma NotEarlier(order: seq<Name>, i: nat)
    requires Sorted(Before, order) && i < |order|
    ensures order[i] !in order[..i] && forall n :: n in order[..i + 1] <==> n in order[..i] || n == order[i]
  {
    BeforeTotal();
    assert forall k :: 0 <= k < i ==> Before(order[k], order[i]);
    assert order[..i + 1] == order[..i] + [order[i]];
  }

  lemma WrittenPointwise(a: Adapter, names: set<Name>, mode: Mode, order: seq<Name>, entries: map<Name, Entry>)
    requires forall n :: n in order <==> n in Marked(a) + names
    requires forall n :: Lookup(entries, n) == if n in order then Placed(a, names, mode, n) else Lookup(a.entries, n)
    ensures Adapter(entries, Some(Marker(names, mode))) == Written(a, names, mode)
  {
    var result := Written(a, names, mode).entries;
    forall n
      ensures Lookup(entries, n) == Lookup(result, n)
    {
    }
    SameLookups(entries, result);
  }

  lemma SameLookups(a: map<Name, Entry>, b: map<Name, Entry>)
    requires forall n :: Lookup(a, n) == Lookup(b, n)
    ensures a == b
  {
    forall n
      ensures n in a <==> n in b
      ensures n in a ==> a[n] == b[n]
    {
      assert Lookup(a, n) == Lookup(b, n);
    }
  }

  // ----- selections -----

  predicate At(owners: map<OwnerKey, OwnerRecord>, o: OwnerKey, p: Path) { o in owners && p in owners[o].paths }

  /** What some recorded owner exposes at a path. */
  function OwnersUnion(owners: map<OwnerKey, OwnerRecord>, p: Path): set<Name> {
    set o, n | o in owners && p in owners[o].paths && n in owners[o].packages :: n
  }

  /** A repository's own row at the path. */
  predicate Claims(row: Row, p: Path) { row.RepoRow? && row.path == p }

  function RowsUnion(rows: seq<Row>, p: Path): set<Name> {
    set i, n | 0 <= i < |rows| && Claims(rows[i], p) && n in rows[i].packages :: n
  }

  function RepoUnion(r: Registry, p: Path): set<Name> {
    set t, n | t in r.targets && n in RowsUnion(r.targets[t].rows, p) :: n
  }

  function UnionAt(r: Registry, p: Path): set<Name> { OwnersUnion(r.owners, p) + RepoUnion(r, p) }

  predicate OwnersFit(owners: map<OwnerKey, OwnerRecord>, p: Path, mode: Mode) {
    forall o :: o in owners && p in owners[o].paths ==> owners[o].mode == mode
  }

  predicate RowsFit(rows: seq<Row>, p: Path, mode: Mode) {
    forall i :: 0 <= i < |rows| && Claims(rows[i], p) ==> rows[i].mode == mode
  }

  predicate RepoFits(r: Registry, p: Path, mode: Mode) {
    forall t :: t in r.targets ==> RowsFit(r.targets[t].rows, p, mode)
  }

  /** The registry without one target's own entry. */
  function Excluding(r: Registry, excluded: Option<TargetKey>): Registry {
    if excluded.None? then r else r.(targets := r.targets - {excluded.value})
  }

  /**
   * `selection`: the given owners' names joined with everybody else's at the
   * path and with `extra`, the new packages of the excluded repository target;
   * `None` on a mode conflict.
   */
  function Selection(r: Registry, p: Path, mode: Mode, selected: map<OwnerKey, set<Name>>,
                     excluded: Option<TargetKey>, extra: set<Name>): Option<set<Name>>
  {
    var others := r.owners - selected.Keys;
    if OwnersFit(others, p, mode) && RepoFits(Excluding(r, excluded), p, mode) then
      Some(Union(selected) + OwnersUnion(others, p) + extra + RepoUnion(Excluding(r, excluded), p))
    else None
  }

  /** The names grow owner by owner and row by row, as long as the modes agree. */
  method Select(r: Registry, p: Path, mode: Mode, selected: map<OwnerKey, set<Name>>,
                excluded: Option<TargetKey>, extra: set<Name>)
    returns (res: Option<set<Name>>)
    ensures res == Selection(r, p, mode, selected, excluded, extra)
  {
    hide RepoUnion, RepoFits, RowsUnion, RowsFit;
    ghost var others := r.owners - selected.Keys;
    var names, todo := Union(selected), r.owners.Keys - selected.Keys;
    ghost var done: map<OwnerKey, OwnerRecord> := map[];
    while todo != {}
      invariant todo <= others.Keys && done == others - todo
      invariant OwnersFit(done, p, mode) && names == Union(selected) + OwnersUnion(done, p)
      decreases todo
    {
      var o :| o in todo;
      if p in r.owners[o].paths && r.owners[o].mode != mode {
        assert !OwnersFit(others, p, mode);
        return None;
      }
      OneOwnerMore(done, o, r.owners[o], p);
      if p in r.owners[o].paths {
        names := names + r.owners[o].packages;
      }
      done := done[o := r.owners[o]];
      todo := todo - {o};
    }
    assert done == others;
    names := names + extra;
    var repo := SelectRepo(r, p, mode, excluded);
    res := if repo.None? then None else Some(names + repo.value);
  }

  lemma OneOwnerMore(done: map<OwnerKey, OwnerRecord>, o: OwnerKey, record: OwnerRecord, p: Path)
    requires o !in done
    ensures OwnersUnion(done[o := record], p)
              == OwnersUnion(done, p) + (if p in record.paths then record.packages else {})
  {
    var more := done[o := record];
    forall n | n in OwnersUnion(done, p)
      ensures n in OwnersUnion(more, p)
    {
      var k :| k in done && p in done[k].paths && n in done[k].packages;
      assert more[k] == done[k];
    }
    assert more[o] == record;
  }

  method SelectRepo(r: Registry, p: Path, mode: Mode, excluded: Option<TargetKey>) returns (res: Option<set<Name>>)
    ensures res.None? <==> !RepoFits(Excluding(r, excluded), p, mode)
    ensures res.Some? ==> res.value == RepoUnion(Excluding(r, excluded), p)
  {
    hide RowsUnion, RowsFit;
    ghost var rest := Excluding(r, excluded).targets;
    var names: set<Name>, todo := {}, r.targets.Keys;
    while todo != {}
      invariant todo <= r.targets.Keys
      invariant forall t :: t in rest && t !in todo ==> RowsFit(rest[t].rows, p, mode)
      invariant names == set t, n | t in rest.Keys - todo && n in RowsUnion(rest[t].rows, p) :: n
      decreases todo
    {
      var t :| t in todo;
      if excluded != Some(t) {
        assert t in rest && rest[t] == r.targets[t];
        var more := SelectRows(r.targets[t].rows, p, mode);
        if more.None? {
          return None;
        }
        names := names + more.value;
      }
      todo := todo - {t};
    }
    res := Some(names);
  }

  method SelectRows(rows: seq<Row>, p: Path, mode: Mode) returns (res: Option<set<Name>>)
    ensures res.None? <==> !RowsFit(rows, p, mode)
    ensures res.Some? ==> res.value == RowsUnion(rows, p)
  {
    var names: set<Name> := {};
    for i := 0 to |rows|
      invariant forall k :: 0 <= k < i && Claims(rows[k], p) ==> rows[k].mode == mode
      invariant names == set k, n | 0 <= k < i && Claims(rows[k], p) && n in rows[k].packages :: n
    {
      if Claims(rows[i], p) {
        if rows[i].mode != mode {
          return None;
        }
        names := names + rows[i].packages;
      }
    }
    res := Some(names);
  }

  // ----- agreement -----

  /** The marker and the managed entries are exactly the given names. */
  ghost predicate Agrees(a: Adapter, names: set<Name>) {
    Marked(a) == names && forall n :: Managed(a, n) <==> n in names
  }

  /** Everybody at the path has the marker's mode; without a marker nobody is there. */
  ghost predicate Fits(r: Registry, a: Adapter, p: Path) {
    match a.marker
    case Some(m) => OwnersFit(r.owners, p, m.mode) && RepoFits(r, p, m.mode)
    case None => (forall o :: !At(r.owners, o, p)) && forall mode :: RepoFits(r, p, mode)
  }

  ghost predicate InvAt(w: World, p: Path) {
    Agrees(AdapterAt(w, p), UnionAt(w.registry, p)) && Fits(w.registry, AdapterAt(w, p), p)
  }

  ghost predicate Inv(w: World) { forall p {:trigger InvAt(w, p)} :: InvAt(w, p) }

  /** An entry the write leaves behind would count as managed under the new marker: a link to the library or a
      package copy that the directory's own marker did not name. */
  predicate Stray(a: Adapter, names: set<Name>, mode: Mode) {
    exists n :: n in a.entries && n !in names && Leftover(a, mode, n)
  }

  predicate Leftover(a: Adapter, mode: Mode, n: Name)
    requires n in a.entries
  {
    && !(n in Marked(a) && Managed(a, n))
    && (a.entries[n].Link? || (a.entries[n] == Copy(true) && mode == Portable))
  }

  /** After a write the marker and the managed entries are the written names, unless a stray entry joins them. */
  lemma WrittenAgrees(a: Adapter, names: set<Name>, mode: Mode)
    requires !Collides(a, names)
    ensures Agrees(Written(a, names, mode), names) <==> !Stray(a, names, mode)
  {
    var b := Written(a, names, mode);
    forall n
      ensures n in names ==> Managed(b, n)
      ensures n !in names ==> (Managed(b, n) <==> n in a.entries && Leftover(a, mode, n))
    {
    }
  }

  /** In an agreeing directory only a real copy under a new portable marker can be stray. */
  lemma StrayIsNewlyPortable(a: Adapter, names: set<Name>, mode: Mode)
    requires Agrees(a, Marked(a))
    ensures Stray(a, names, mode) <==>
              && mode == Portable
              && exists n :: n in a.entries && n !in names && a.entries[n] == Copy(true) && !Managed(a, n)
  {
    if n :| n in a.entries && n !in names && Leftover(a, mode, n) {
      assert !Managed(a, n);
    }
    if mode == Portable {
      if n :| n in a.entries && n !in names && a.entries[n] == Copy(true) && !Managed(a, n) {
        assert Leftover(a, mode, n);
      }
    }
  }

  /** Entries the marker does not name or nobody manages are left as they are, unless they are asked for. */
  lemma WrittenKeepsOthers(a: Adapter, names: set<Name>, mode: Mode, n: Name)
    requires n !in names && (n !in Marked(a) || !Managed(a, n))
    ensures Lookup(Written(a, names, mode).entries, n) == Lookup(a.entries, n)
  {
  }

  /** A second write over the same names' owner leaves what it would have left alone. */
  lemma WrittenTwice(a: Adapter, first: set<Name>, second: set<Name>, mode: Mode)
    requires Agrees(a, Marked(a)) && second <= first <= Marked(a) && a.marker.Some? && a.marker.value.mode == mode
    ensures Written(Written(a, first, mode), second, mode) == Written(a, second, mode)
  {
    var b := Written(a, first, mode);
    forall n
      ensures Lookup(Written(b, second, mode).entries, n) == Lookup(Written(a, second, mode).entries, n)
    {
      assert Managed(b, n) ==> n in first || n in Marked(a) || !Managed(a, n);
    }
    SameLookups(Written(b, second, mode).entries, Written(a, second, mode).entries);
  }

  // ----- detaching personal owners -----

  /** The paths some of the given owners are recorded at. */
  function PathsOfOwners(owners: map<OwnerKey, OwnerRecord>, chosen: set<OwnerKey>): set<Path> {
    set o, p | o in chosen && o in owners && p in owners[o].paths :: p
  }

  /** The detached owners at one path, with nothing selected any more. */
  function Emptied(owners: map<OwnerKey, OwnerRecord>, gone: set<OwnerKey>, p: Path): map<OwnerKey, set<Name>> {
    map o | o in gone && At(owners, o, p) :: {}
  }

  /** The mode the detached owners at a path share. */
  function ModeAt(owners: map<OwnerKey, OwnerRecord>, gone: set<OwnerKey>, p: Path): Option<Mode> {
    if forall o :: o in gone && At(owners, o, p) ==> owners[o].mode == Portable then Some(Portable)
    else if forall o :: o in gone && At(owners, o, p) ==> owners[o].mode == Symlink then Some(Symlink)
    else None
  }

  /** The names a detach writes at one path; `None` where planning is blocked. */
  function Remaining(r: Registry, gone: set<OwnerKey>, p: Path): Option<set<Name>> {
    match ModeAt(r.owners, gone, p)
    case None => None
    case Some(mode) => Selection(r, p, mode, Emptied(r.owners, gone, p), None, {})
  }

  predicate DetachReady(w: World, gone: set<OwnerKey>, library: set<Name>) {
    && gone <= w.registry.owners.Keys && Detachable(w.registry, gone)
    && forall p :: p in PathsOfOwners(w.registry.owners, gone) ==>
         && Remaining(w.registry, gone, p).Some? && Remaining(w.registry, gone, p).value <= library
         && !Collides(AdapterAt(w, p), Remaining(w.registry, gone, p).value)
  }

  /** `detach_personal`: every path rewritten, then the registry saved. */
  function Detached(w: World, gone: set<OwnerKey>, library: set<Name>): World
    requires DetachReady(w, gone, library)
  {
    var paths := PathsOfOwners(w.registry.owners, gone);
    World(
      DetachOwners(w.registry, gone),
      map p | p in w.adapters.Keys + paths ::
        if p in paths then
          Written(AdapterAt(w, p), Remaining(w.registry, gone, p).value, ModeAt(w.registry.owners, gone, p).value)
        else w.adapters[p])
  }

  /** Rows of personal owners never count as a repository's. */
  lemma {:induction false} RowsWithoutUnion(rows: seq<Row>, gone: set<OwnerKey>, p: Path)
    ensures RowsUnion(RowsWithout(rows, gone), p) == RowsUnion(rows, p)
    ensures forall mode :: RowsFit(RowsWithout(rows, gone), p, mode) <==> RowsFit(rows, p, mode)
  {
    if rows != [] {
      var front, last := rows[..|rows| - 1], rows[|rows| - 1];
      RowsWithoutUnion(front, gone, p);
      RowsUnionStep(front, last, p);
      assert rows == front + [last];
      match WithoutOwners(last, gone)
      case None => assert RowsWithout(rows, gone) == RowsWithout(front, gone);
      case Some(row) => RowsUnionStep(RowsWithout(front, gone), row, p);
    }
  }

  lemma RowsUnionStep(rows: seq<Row>, row: Row, p: Path)
    ensures RowsUnion(rows + [row], p) == RowsUnion(rows, p) + (if Claims(row, p) then row.packages else {})
    ensures forall mode :: RowsFit(rows + [row], p, mode) <==>
              RowsFit(rows, p, mode) && (Claims(row, p) ==> row.mode == mode)
  {
    var all := rows + [row];
    assert all[|rows|] == row && forall i :: 0 <= i < |rows| ==> all[i] == rows[i];
    forall n | n in RowsUnion(rows, p)
      ensures n in RowsUnion(all, p)
    {
      var i :| 0 <= i < |rows| && Claims(rows[i], p) && n in rows[i].packages;
      assert all[i] == rows[i];
    }
    forall mode
      ensures RowsFit(all, p, mode) <==> RowsFit(rows, p, mode) && (Claims(row, p) ==> row.mode == mode)
    {
      if RowsFit(all, p, mode) {
        assert forall i :: 0 <= i < |rows| ==> all[i] == rows[i];
      }
    }
  }

  lemma DetachKeepsRepo(r: Registry, gone: set<OwnerKey>, p: Path)
    ensures RepoUnion(DetachOwners(r, gone), p) == RepoUnion(r, p)
    ensures forall mode :: RepoFits(DetachOwners(r, gone), p, mode) <==> RepoFits(r, p, mode)
  {
    hide RowsWithout, RowsUnion, RowsFit;
    var r' := DetachOwners(r, gone);
    assert r'.targets.Keys == r.targets.Keys;
    forall t | t in r.targets
      ensures RowsUnion(r'.targets[t].rows, p) == RowsUnion(r.targets[t].rows, p)
      ensures forall mode :: RowsFit(r'.targets[t].rows, p, mode) <==> RowsFit(r.targets[t].rows, p, mode)
    {
      RowsWithoutUnion(r.targets[t].rows, gone, p);
    }
    forall n
      ensures n in RepoUnion(r', p) <==> n in RepoUnion(r, p)
    {
    }
    forall mode
      ensures RepoFits(r', p, mode) <==> RepoFits(r, p, mode)
    {
      assert forall t :: t in r.targets ==>
             (RowsFit(r'.targets[t].rows, p, mode) <==> RowsFit(r.targets[t].rows, p, mode));
    }
  }

  /** What a detach writes at a path is the union of everybody who stays. */
  lemma RemainingIsUnion(w: World, gone: set<OwnerKey>, p: Path)
    requires InvAt(w, p) && p in PathsOfOwners(w.registry.owners, gone)
    ensures var mode := ModeAt(w.registry.owners, gone, p);
            && AdapterAt(w, p).marker.Some? && mode == Some(AdapterAt(w, p).marker.value.mode)
            && Remaining(w.registry, gone, p) == Some(UnionAt(DetachOwners(w.registry, gone), p))
            && UnionAt(DetachOwners(w.registry, gone), p) <= UnionAt(w.registry, p)
  {
    hide RepoUnion, RepoFits, DetachOwners;
    var r := w.registry;
    var d := r.owners - Emptied(r.owners, gone, p).Keys;
    DetachKeepsRepo(r, gone, p);
    var o :| o in gone && o in r.owners && p in r.owners[o].paths;
    assert At(r.owners, o, p);
    DetachedOwners(r, gone);
    SameAtPath(d, r.owners - gone, p);
    assert Union(Emptied(r.owners, gone, p)) == {};
    var m := AdapterAt(w, p).marker.value.mode;
    assert r.owners[o].mode == m;
    assert ModeAt(r.owners, gone, p) == Some(m);
    assert OwnersFit(d, p, m) && RepoFits(r, p, m);
    assert Selection(r, p, m, Emptied(r.owners, gone, p), None, {})
           == Some({} + OwnersUnion(d, p) + {} + RepoUnion(r, p));
    assert {} + OwnersUnion(d, p) + {} + RepoUnion(r, p) == UnionAt(DetachOwners(r, gone), p);
    forall n | n in OwnersUnion(r.owners - gone, p)
      ensures n in OwnersUnion(r.owners, p)
    {
    }
  }

  lemma DetachedOwners(r: Registry, gone: set<OwnerKey>)
    ensures DetachOwners(r, gone).owners == r.owners - gone
  {
  }

  lemma SameAtPath(a: map<OwnerKey, OwnerRecord>, b: map<OwnerKey, OwnerRecord>, p: Path)
    requires forall o :: At(a, o, p) <==> At(b, o, p)
    requires forall o :: At(a, o, p) && At(b, o, p) ==> a[o].packages == b[o].packages
    ensures OwnersUnion(a, p) == OwnersUnion(b, p)
  {
    forall n
      ensures n in OwnersUnion(a, p) <==> n in OwnersUnion(b, p)
    {
      if o :| o in a && p in a[o].paths && n in a[o].packages {
        assert At(a, o, p) && At(b, o, p);
      }
      if o :| o in b && p in b[o].paths && n in b[o].packages {
        assert At(b, o, p) && At(a, o, p);
      }
    }
  }

  /** The directory after a detach, wherever it was rewritten or not. */
  lemma DetachedAt(w: World, gone: set<OwnerKey>, library: set<Name>, p: Path)
    requires DetachReady(w, gone, library)
    ensures var paths := PathsOfOwners(w.registry.owners, gone);
            AdapterAt(Detached(w, gone, library), p)
            == if p in paths then
                 Written(AdapterAt(w, p), Remaining(w.registry, gone, p).value,
                     ModeAt(w.registry.owners, gone, p).value)
               else AdapterAt(w, p)
  {
    hide Written, Remaining, ModeAt, PathsOfOwners, DetachOwners;
  }

  /** A detach leaves marker, managed entries and the remaining owners' union in agreement at every path. */
  lemma DetachKeepsAgreement(w: World, gone: set<OwnerKey>, library: set<Name>)
    requires Inv(w) && DetachReady(w, gone, library)
    ensures Inv(Detached(w, gone, library))
  {
    hide DetachReady, Detached, InvAt;
    var w' := Detached(w, gone, library);
    forall p {:trigger InvAt(w', p)}
      ensures InvAt(w', p)
    {
      assert InvAt(w, p);
      DetachKeepsAgreementAt(w, gone, library, p);
    }
  }

  lemma DetachKeepsAgreementAt(w: World, gone: set<OwnerKey>, library: set<Name>, p: Path)
    requires InvAt(w, p) && DetachReady(w, gone, library)
    ensures InvAt(Detached(w, gone, library), p)
  {
    hide Written, RepoFits, RepoUnion, Remaining, ModeAt, DetachOwners;
    var r, r' := w.registry, DetachOwners(w.registry, gone);
    DetachedAt(w, gone, library, p);
    DetachKeepsRepo(r, gone, p);
    DetachedOwners(r, gone);
    var a := AdapterAt(w, p);
    if p in PathsOfOwners(r.owners, gone) {
      RemainingIsUnion(w, gone, p);
      WrittenAgrees(a, UnionAt(r', p), a.marker.value.mode);
      WrittenMarker(a, UnionAt(r', p), a.marker.value.mode);
    } else {
      assert forall o :: o in gone ==> !At(r.owners, o, p);
      assert forall o :: At(r.owners - gone, o, p) <==> At(r.owners, o, p);
      SameAtPath(r.owners, r.owners - gone, p);
    }
  }

  lemma WrittenMarker(a: Adapter, names: set<Name>, mode: Mode)
    requires a.marker.Some? && a.marker.value.mode == mode && Agrees(a, Marked(a))
    ensures Written(a, names, mode).marker == Some(Marker(names, mode)) && !Stray(a, names, mode)
  {
  }

  /** Entries outside the marker survive a detach unchanged, whatever they are. */
  lemma DetachKeepsNeighbours(w: World, gone: set<OwnerKey>, library: set<Name>, p: Path, n: Name)
    requires Inv(w) && DetachReady(w, gone, library) && n !in Marked(AdapterAt(w, p))
    ensures Lookup(AdapterAt(Detached(w, gone, library), p).entries, n) == Lookup(AdapterAt(w, p).entries, n)
  {
    hide Written, DetachOwners, Remaining, ModeAt;
    assert InvAt(w, p);
    DetachedAt(w, gone, library, p);
    if p in PathsOfOwners(w.registry.owners, gone) {
      RemainingIsUnion(w, gone, p);
      WrittenKeepsOthers(AdapterAt(w, p), UnionAt(DetachOwners(w.registry, gone), p),
          AdapterAt(w, p).marker.value.mode, n);
    }
  }

  /** In agreement a detach goes through exactly when its owners are recorded, no receipt row of theirs is malformed,
      and the library holds what stays selected wherever they were. */
  lemma DetachIsReady(w: World, gone: set<OwnerKey>, library: set<Name>)
    requires Inv(w)
    ensures DetachReady(w, gone, library) <==>
              && (forall o :: o in gone ==> o in w.registry.owners)
              && (forall t, i :: t in w.registry.targets && 0 <= i < |w.registry.targets[t].rows| ==>
                    var row := w.registry.targets[t].rows[i];
                    row.PersonalRow? && (exists o :: o in row.owners && o in gone) ==> WellChosen(row))
              && forall o, p :: o in gone && At(w.registry.owners, o, p) ==>
                   UnionAt(DetachOwners(w.registry, gone), p) <= library
  {
    DetachableMeans(w.registry, gone);
    hide DetachOwners, Remaining, ModeAt, Detachable, WellChosen, UnionAt;
    forall p | p in PathsOfOwners(w.registry.owners, gone)
      ensures Remaining(w.registry, gone, p) == Some(UnionAt(DetachOwners(w.registry, gone), p))
      ensures !Collides(AdapterAt(w, p), Remaining(w.registry, gone, p).value)
    {
      assert InvAt(w, p);
      RemainingIsFree(w, gone, p);
    }
    forall o, p | o in gone && At(w.registry.owners, o, p)
      ensures p in PathsOfOwners(w.registry.owners, gone)
    {
    }
    assert (forall o :: o in gone ==> o in w.registry.owners) <==> gone <= w.registry.owners.Keys;
  }

  lemma RemainingIsFree(w: World, gone: set<OwnerKey>, p: Path)
    requires InvAt(w, p) && p in PathsOfOwners(w.registry.owners, gone)
    ensures Remaining(w.registry, gone, p) == Some(UnionAt(DetachOwners(w.registry, gone), p))
    ensures !Collides(AdapterAt(w, p), Remaining(w.registry, gone, p).value)
  {
    hide DetachOwners, Remaining, ModeAt;
    RemainingIsUnion(w, gone, p);
  }

  lemma DetachableMeans(r: Registry, gone: set<OwnerKey>)
    ensures Detachable(r, gone) <==>
              forall t, i :: t in r.targets && 0 <= i < |r.targets[t].rows| ==>
                var row := r.targets[t].rows[i];
                row.PersonalRow? && (exists o :: o in row.owners && o in gone) ==> WellChosen(row)
  {
    forall row: Row
      ensures RowDetachable(row, gone) <==>
                (row.PersonalRow? && (exists o :: o in row.owners && o in gone) ==> WellChosen(row))
    {
      ChosenMeans(row);
      if row.PersonalRow? {
        assert row.owners !! gone <==> forall o :: o in row.owners ==> o !in gone;
      }
    }
    hide RowDetachable, WellChosen;
  }

  // ----- content the tool did not make -----

  /** What the tool never makes: anything but a link to the library and a copy of a package. */
  predicate Foreign(e: Entry) { e != Link && e != Copy(true) }

  /** Foreign entries of every directory are still there. */
  ghost predicate SparesForeign(w: World, later: World) {
    forall p {:trigger AdapterAt(later, p)} :: SparesForeignIn(AdapterAt(w, p), AdapterAt(later, p))
  }

  ghost predicate SparesForeignIn(a: Adapter, b: Adapter) {
    forall n :: n in a.entries && Foreign(a.entries[n]) ==> n in b.entries && b.entries[n] == a.entries[n]
  }

  lemma WrittenSpares(a: Adapter, names: set<Name>, mode: Mode)
    requires !Collides(a, names)
    ensures SparesForeignIn(a, Written(a, names, mode))
  {
    forall n | n in a.entries && Foreign(a.entries[n])
      ensures Lookup(Written(a, names, mode).entries, n) == Lookup(a.entries, n)
    {
      WrittenKeepsOthers(a, names, mode, n);
    }
  }

  lemma DetachSparesForeign(w: World, gone: set<OwnerKey>, library: set<Name>)
    requires DetachReady(w, gone, library)
    ensures SparesForeign(w, Detached(w, gone, library))
  {
    hide Written, Remaining, ModeAt, DetachOwners, Collides, Foreign;
    var later := Detached(w, gone, library);
    forall p {:trigger AdapterAt(later, p)}
      ensures SparesForeignIn(AdapterAt(w, p), AdapterAt(later, p))
    {
      DetachedAt(w, gone, library, p);
      if p in PathsOfOwners(w.registry.owners, gone) {
        DetachWrites(w, gone, library, p);
      }
    }
  }

  lemma DetachWrites(w: World, gone: set<OwnerKey>, library: set<Name>, p: Path)
    requires DetachReady(w, gone, library) && p in PathsOfOwners(w.registry.owners, gone)
    ensures Remaining(w.registry, gone, p).Some? && ModeAt(w.registry.owners, gone, p).Some?
    ensures SparesForeignIn(AdapterAt(w, p), Written(AdapterAt(w, p), Remaining(w.registry, gone, p).value,
                                                     ModeAt(w.registry.owners, gone, p).value))
  {
    hide Written, ModeAt, Selection, Collides;
    WrittenSpares(AdapterAt(w, p), Remaining(w.registry, gone, p).value, ModeAt(w.registry.owners, gone, p).value);
  }


  lemma PathsLater(owners: map<OwnerKey, OwnerRecord>, a: set<OwnerKey>, b: set<OwnerKey>)
    requires a !! b
    ensures PathsOfOwners(owners - a, b) == PathsOfOwners(owners, b)
  {
    var later := owners - a;
    assert forall o :: o in b ==> (o in later <==> o in owners);
    assert forall o :: o in later ==> later[o] == owners[o];
  }

  /** Two detaches leave at each path one write of what both leave there. */
  lemma DetachTwiceAt(w: World, a: set<OwnerKey>, b: set<OwnerKey>, library: set<Name>, p: Path)
    requires InvAt(w, p) && RowsWellFormed(w.registry) && a !! b
    requires DetachReady(w, a, library) && DetachReady(Detached(w, a, library), b, library)
    ensures var owners := w.registry.owners;
            AdapterAt(Detached(Detached(w, a, library), b, library), p)
            == if p in PathsOfOwners(owners, a) + PathsOfOwners(owners, b) && AdapterAt(w, p).marker.Some? then
                 Written(AdapterAt(w, p), UnionAt(DetachOwners(w.registry, a + b), p),
                     AdapterAt(w, p).marker.value.mode)
               else AdapterAt(w, p)
  {
    var w1, r := Detached(w, a, library), w.registry;
    var owners, dir := r.owners, AdapterAt(w, p);
    DetachedAt(w, a, library, p);
    DetachedAt(w1, b, library, p);
    DetachKeepsAgreementAt(w, a, library, p);
    DetachOwnersInSteps(r, a, b);
    PathsLater(owners, a, b);
    DetachedOwners(r, a);
    hide Written, DetachOwners, DetachReady, Detached, Remaining, ModeAt, PathsOfOwners, AdapterAt, UnionAt;
    if p in PathsOfOwners(owners, a) {
      RemainingIsUnion(w, a, p);
      if p in PathsOfOwners(owners, b) {
        RemainingIsUnion(w1, b, p);
        WrittenMarker(dir, UnionAt(DetachOwners(r, a), p), dir.marker.value.mode);
        WrittenTwice(dir, UnionAt(DetachOwners(r, a), p), UnionAt(DetachOwners(r, a + b), p), dir.marker.value.mode);
      } else {
        NobodyElse(r, a, b, p);
      }
    } else if p in PathsOfOwners(owners, b) {
      RemainingIsUnion(w1, b, p);
    }
  }

  lemma NobodyElse(r: Registry, a: set<OwnerKey>, b: set<OwnerKey>, p: Path)
    requires p !in PathsOfOwners(r.owners, b)
    ensures UnionAt(DetachOwners(r, a), p) == UnionAt(DetachOwners(r, a + b), p)
  {
    hide RepoUnion, DetachOwners;
    DetachKeepsRepo(r, a, p);
    DetachKeepsRepo(r, a + b, p);
    DetachedOwners(r, a);
    DetachedOwners(r, a + b);
    assert forall o :: o in b ==> !At(r.owners, o, p);
    SameAtPath(r.owners - a, r.owners - (a + b), p);
  }

  /** Detaching two groups of owners ends in the same world in either order. */
  lemma DetachOrder(w: World, a: set<OwnerKey>, b: set<OwnerKey>, library: set<Name>)
    requires Inv(w) && RowsWellFormed(w.registry) && a !! b
    requires DetachReady(w, a, library) && DetachReady(Detached(w, a, library), b, library)
    requires DetachReady(w, b, library) && DetachReady(Detached(w, b, library), a, library)
    ensures Detached(Detached(w, a, library), b, library) == Detached(Detached(w, b, library), a, library)
  {
    var x, y := Detached(Detached(w, a, library), b, library), Detached(Detached(w, b, library), a, library);
    KeysAfter(w, a, b, library);
    KeysAfter(w, b, a, library);
    assert a + b == b + a;
    hide DetachReady, Detached, InvAt, RowsWellFormed, DetachOwners, UnionAt, Written, PathsOfOwners;
    DetachOwnersInSteps(w.registry, a, b);
    forall p {:trigger AdapterAt(x, p)}
      ensures AdapterAt(x, p) == AdapterAt(y, p)
    {
      assert InvAt(w, p);
      DetachTwiceAt(w, a, b, library, p);
      DetachTwiceAt(w, b, a, library, p);
    }
    SameAdapters(x, y);
  }

  lemma KeysAfter(w: World, a: set<OwnerKey>, b: set<OwnerKey>, library: set<Name>)
    requires DetachReady(w, a, library) && DetachReady(Detached(w, a, library), b, library) && a !! b
    ensures var last := Detached(Detached(w, a, library), b, library);
            && last.adapters.Keys == w.adapters.Keys + PathsOfOwners(w.registry.owners, a)
                + PathsOfOwners(w.registry.owners, b)
            && last.registry == DetachOwners(DetachOwners(w.registry, a), b)
  {
    hide PathsOfOwners, Remaining, ModeAt, Written;
    PathsLater(w.registry.owners, a, b);
    DetachedOwners(w.registry, a);
  }

  lemma SameAdapters(x: World, y: World)
    requires x.adapters.Keys == y.adapters.Keys
               && forall p {:trigger AdapterAt(x, p)} :: AdapterAt(x, p) == AdapterAt(y, p)
    ensures x.adapters == y.adapters
  {
    forall p | p in x.adapters
      ensures x.adapters[p] == y.adapters[p]
    {
      assert AdapterAt(x, p) == AdapterAt(y, p);
    }
  }
}
