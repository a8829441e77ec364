/** Adapter directories a repository writes alone (ls/core/apply.py, adapters.py). */
module RepositoryAdapters {
  import opened Wrappers
  import opened PackageRegistries
  import opened PersonalAdapters

  /** What the writer takes for its own under a mode: package copies when portable, links otherwise. */
  predicate OfMode(e: Entry, mode: Mode) { if mode == Portable then e == Copy(true) else e.Link? }

  function MarkerMode(a: Adapter): Mode { if a.marker.Some? then a.marker.value.mode else Symlink }

  // ----- writing -----

  /** A wanted name is taken by an entry that is not the directory's own; planning refuses that. */
  predicate Taken(a: Adapter, names: set<Name>) {
    exists n :: n in names && n in a.entries && !OfMode(a.entries[n], MarkerMode(a))
  }

  /** An earlier package's entry that goes because it is not wanted any more. */
  predicate Stale(a: Adapter, names: set<Name>, mode: Mode, n: Name) {
    n in a.entries && n !in names && n in Marked(a) && OfMode(a.entries[n], mode)
  }

  function ScopedAt(a: Adapter, names: set<Name>, mode: Mode, n: Name): Option<Entry> {
    if n in names then Some(Made(mode)) else if Stale(a, names, mode, n) then None else Lookup(a.entries, n)
  }

  /** The directory after `_write_scoped_adapter`. */
  function Scoped(a: Adapter, names: set<Name>, mode: Mode): Adapter {
    Adapter(map n | n in a.entries.Keys + names
        && ScopedAt(a, names, mode, n).Some? :: ScopedAt(a, names, mode, n).value,
            Some(Marker(names, mode)))
  }

  /** An entry the write leaves behind counts as managed under the new marker: a link the mode did not
      remove, or a package copy the marker did not name. */
  predicate LeftManaged(a: Adapter, names: set<Name>, mode: Mode) {
    exists n :: n in a.entries && n !in names && !Stale(a, names, mode, n)
                && (a.entries[n].Link? || (a.entries[n] == Copy(true) && mode == Portable))
  }

  /** After a write marker and managed entries are the written names, unless the write left a managed entry behind. */
  lemma ScopedAgrees(a: Adapter, names: set<Name>, mode: Mode)
    ensures PersonalAdapters.Agrees(Scoped(a, names, mode), names) <==> !LeftManaged(a, names, mode)
    ensures Scoped(a, names, mode).marker == Some(Marker(names, mode))
  {
    var b := Scoped(a, names, mode);
    forall n
      ensures n in names ==> Managed(b, n)
      ensures n !in names ==>
                (Managed(b, n) <==>
                   && n in a.entries && !Stale(a, names, mode, n)
                   && (a.entries[n].Link? || (a.entries[n] == Copy(true) && mode == Portable)))
    {
    }
  }

  /** A write leaves every wanted name in the mode's form. */
  lemma ScopedForms(a: Adapter, names: set<Name>, mode: Mode)
    ensures Formed(Scoped(a, names, mode), names, mode)
  {
  }

  /** Nothing but the marker's own packages in the new mode's form ever goes. */
  lemma ScopedKeepsOthers(a: Adapter, names: set<Name>, mode: Mode, n: Name)
    requires n !in names && (n !in Marked(a) || !Formed(a, {n}, mode))
    ensures Lookup(Scoped(a, names, mode).entries, n) == Lookup(a.entries, n)
  {
    if n in a.entries && a.entries[n] == match mode { case Portable => Copy(true) case Symlink => Link } {
      assert Formed(a, {n}, mode);
    }
  }

  /** In an agreeing directory a write in the marker's own mode leaves only hand-made links of a portable directory. */
  lemma SameModeLeavesNothing(a: Adapter, names: set<Name>, mode: Mode)
    requires PersonalAdapters.Agrees(a, Marked(a)) && a.marker.Some? && a.marker.value.mode == mode
    ensures LeftManaged(a, names, mode) <==>
              mode == Portable && exists n :: n in a.entries && n !in names && a.entries[n].Link?
  {
    if mode == Portable {
      if n :| n in a.entries && n !in names && a.entries[n].Link? {
        assert !Stale(a, names, mode, n);
      }
    }
    forall n | n in a.entries && (a.entries[n].Link? || (a.entries[n] == Copy(true) && mode == Portable))
      ensures n in Marked(a)
    {
      assert Managed(a, n);
    }
  }

  // ----- removing -----

  /** The names a removal looks at: the marker's and the recorded ones, or everything when neither knows any. */
  function Candidates(a: Adapter, recorded: set<Name>): set<Name> {
    if Marked(a) + recorded == {} then a.entries.Keys else Marked(a) + recorded
  }

  /** The directory after `remove_managed_adapter_entries`. */
  function Cleared(a: Adapter, recorded: set<Name>): Adapter {
    Adapter(map n | n in a.entries
        && !(n in Candidates(a, recorded) && OfMode(a.entries[n], MarkerMode(a))) :: a.entries[n],
            None)
  }

  /** A link to the library stays behind. */
  predicate LinkLeft(a: Adapter, recorded: set<Name>) {
    exists n :: n in a.entries && a.entries[n].Link? && !(n in Candidates(a, recorded) && MarkerMode(a) == Symlink)
  }

  /** After a removal nothing is marked, and nothing is managed unless a link stayed behind. */
  lemma ClearedAgrees(a: Adapter, recorded: set<Name>)
    ensures PersonalAdapters.Agrees(Cleared(a, recorded), {}) <==> !LinkLeft(a, recorded)
    ensures Cleared(a, recorded).marker == None
  {
    var b := Cleared(a, recorded);
    forall n
      ensures Managed(b, n) <==>
                n in a.entries && a.entries[n].Link? && !(n in Candidates(a, recorded) && MarkerMode(a) == Symlink)
    {
    }
  }

  /** A removal takes away exactly what stands in the marker's form and is named by the marker or the
      record, or, when neither names anything, whatever stands in that form. */
  lemma ClearedExact(a: Adapter, recorded: set<Name>, n: Name)
    ensures var named := Marked(a) + recorded;
            var mode := if a.marker.Some? then a.marker.value.mode else Symlink;
            Lookup(Cleared(a, recorded).entries, n)
            == if Formed(a, {n}, mode) && (named == {} || n in named) then None else Lookup(a.entries, n)
  {
    assert Formed(a, {n}, MarkerMode(a)) <==> n in a.entries && OfMode(a.entries[n], MarkerMode(a)) by {
      assert n in {n};
    }
  }

  /** In an agreeing directory of links none stays behind. */
  lemma LinksAreCleared(a: Adapter, recorded: set<Name>)
    requires PersonalAdapters.Agrees(a, Marked(a)) && MarkerMode(a) == Symlink
    ensures !LinkLeft(a, recorded)
  {
    forall n | n in a.entries && a.entries[n].Link?
      ensures n in Candidates(a, recorded)
    {
      assert Managed(a, n);
    }
  }

  // ----- the loops -----

  /** One adapter directory on disk, as the repository's own writer treats it. */
  class ScopedDirectory {
    var entries: map<Name, Entry>
    var marker: Option<Marker>

    constructor (a: Adapter)
      ensures Value() == a
    {
      entries, marker := a.entries, a.marker;
    }

    function Value(): Adapter
      reads this
    {
      Adapter(entries, marker)
    }

    /** `_write_scoped_adapter`: stale packages go, wanted ones are made anew, then the marker. */
    method WriteScoped(names: set<Name>, mode: Mode, library: set<Name>) returns (ok: bool)
      modifies this
      ensures ok <==> names <= library
      ensures ok ==> Value() == Scoped(old(Value()), names, mode)
      ensures ok ==> Formed(Value(), names, mode)
      ensures !ok ==> marker == old(marker)
    {
      hide Stale, Made;
      var before := Value();
      RemoveStale(names, mode);
      var todo := names;
      while todo != {}
        invariant todo <= names && names - todo <= library && marker == before.marker
        invariant forall n :: Lookup(entries, n) ==
                    if n in names - todo then Some(Made(mode))
                    else if Stale(before, names, mode, n) then None
                    else Lookup(before.entries, n)
        decreases todo
      {
        var name :| name in todo;
        if name !in library {
          return false;
        }
        entries := entries[name := Made(mode)];
        todo := todo - {name};
      }
      marker := Some(Marker(names, mode));
      ok := true;
      ScopedPointwise(before, names, mode, entries);
      ScopedForms(before, names, mode);
    }

    method RemoveStale(names: set<Name>, mode: Mode)
      modifies this`entries
      ensures forall n :: Lookup(entries, n) ==
                if Stale(old(Value()), names, mode, n) then None else Lookup(old(entries), n)
    {
      hide OfMode;
      var before := Value();
      var todo := Marked(before) - names;
      while todo != {}
        invariant todo <= Marked(before) - names && marker == before.marker
        invariant forall n :: Lookup(entries, n) ==
                    if Stale(before, names, mode, n) && n !in todo then None else Lookup(before.entries, n)
        decreases todo
      {
        var name :| name in todo;
        assert Lookup(entries, name) == Lookup(before.entries, name);
        if name in entries && OfMode(entries[name], mode) {
          entries := entries - {name};
        }
        todo := todo - {name};
      }
    }

    /** `remove_managed_adapter_entries`. */
    method RemoveManaged(recorded: set<Name>)
      modifies this
      ensures Value() == Cleared(old(Value()), recorded)
    {
      hide OfMode, MarkerMode;
      var before := Value();
      var mode, todo := MarkerMode(before), Candidates(before, recorded);
      while todo != {}
        invariant todo <= Candidates(before, recorded) && marker == before.marker
        invariant forall n :: Lookup(entries, n) ==
                    if n in Candidates(before, recorded) - todo && n in before.entries
                        && OfMode(before.entries[n], mode)
                    then None else Lookup(before.entries, n)
        decreases todo
      {
        var name :| name in todo;
        assert Lookup(entries, name) == Lookup(before.entries, name);
        if name in entries && OfMode(entries[name], mode) {
          entries := entries - {name};
        }
        todo := todo - {name};
      }
      marker := None;
      forall n
        ensures Lookup(entries, n) == Lookup(Cleared(before, recorded).entries, n)
      {
      }
      SameLookups(entries, Cleared(before, recorded).entries);
    }
  }

  lemma ScopedPointwise(a: Adapter, names: set<Name>, mode: Mode, entries: map<Name, Entry>)
    requires forall n :: Lookup(entries, n) == ScopedAt(a, names, mode, n)
    ensures Adapter(entries, Some(Marker(names, mode))) == Scoped(a, names, mode)
  {
    var result := Scoped(a, names, mode).entries;
    forall n
      ensures Lookup(entries, n) == Lookup(result, n)
    {
    }
    SameLookups(entries, result);
  }
}
