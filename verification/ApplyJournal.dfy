/**
  The undo journal of an install transaction: every mutation is preceded by a backup
  copy and a journal record, and a failure replays the records newest first.
 */
module ApplyJournal {
  import opened Wrappers

  type Path = seq<string>

  datatype Node = Directory | File(content: string) | Link(target: string)

  /** A file tree: every node's parent is a directory of the tree. */
  type Tree = map<Path, Node>

  datatype Kind = ManagedPackage | Adapter | FileState

  datatype Item = Item(kind: Kind, path: Path, backup: Path, existed: bool)

  predicate Under(q: Path, p: Path) {
    |p| <= |q| && q[..|p|] == p
  }

  function Parent(p: Path): Path
    requires p != []
  {
    p[..|p| - 1]
  }

  predicate HasParent(fs: Tree, p: Path) {
    p != [] ==> Parent(p) in fs && fs[Parent(p)].Directory?
  }

  ghost predicate WellFormed(fs: Tree) {
    forall p {:trigger HasParent(fs, p)} :: p in fs ==> HasParent(fs, p)
  }

  predicate Siblings(p: Path, q: Path) {
    p != [] && q != [] && p != q && Parent(p) == Parent(q)
  }

  /** The tree without a path and everything below it. */
  function Without(fs: Tree, p: Path): Tree {
    map q | q in fs && !Under(q, p) :: fs[q]
  }

  /** Where the copy of `q` lands when the subtree at `src` is put at `dst`. */
  function Moved(q: Path, src: Path, dst: Path): Path
    requires Under(q, src)
  {
    dst + q[|src|..]
  }

  lemma MovedBack(q: Path, src: Path, dst: Path)
    requires Under(q, src)
    ensures Under(Moved(q, src, dst), dst) && Moved(Moved(q, src, dst), dst, src) == q
  {
    assert Moved(q, src, dst)[|dst|..] == q[|src|..];
  }

  /** The tree with copies of the nodes `done`, all below `src`, put below `dst`. */
  function PartlyCopied(fs: Tree, done: set<Path>, src: Path, dst: Path): (r: Tree)
    requires forall q :: q in done ==> q in fs && Under(q, src)
    ensures forall q :: q in r <==> q in fs || (Under(q, dst) && Moved(q, dst, src) in done)
    ensures forall q :: q in r ==>
              r[q] == if Under(q, dst) && Moved(q, dst, src) in done then fs[Moved(q, dst, src)] else fs[q]
  {
    var added := set q | q in done :: Moved(q, src, dst);
    assert forall q :: q in added <==> Under(q, dst) && Moved(q, dst, src) in done by {
      forall q | Under(q, dst) && Moved(q, dst, src) in done
        ensures q in added
      {
        MovedBack(q, dst, src);
      }
      forall q | q in added
        ensures Under(q, dst) && Moved(q, dst, src) in done
      {
        var o :| o in done && q == Moved(o, src, dst);
        MovedBack(o, src, dst);
      }
    }
    fs + map q | q in added :: fs[Moved(q, dst, src)]
  }

  /** The tree with a copy of the subtree at `src` put at `dst`. */
  function Copied(fs: Tree, src: Path, dst: Path): Tree {
    PartlyCopied(fs, (set q | q in fs && Under(q, src)), src, dst)
  }

  // ---------------------------------------------------------------- replay

  datatype Fault = MissingBackup(path: Path) | CannotRestore(path: Path)

  /** Replay one record. A record whose required backup is missing is left alone. */
  function ReplayItem(fs: Tree, item: Item): (Tree, seq<Fault>) {
    if item.existed && item.backup !in fs then (fs, [MissingBackup(item.path)])
    else
      var cleared := if item.path in fs then Without(fs, item.path) else fs;
      if item.existed then
        if item.backup in cleared && HasParent(cleared, item.path) then
          (Without(Copied(cleared, item.backup, item.path), item.backup), [])
        else (cleared, [CannotRestore(item.path)])
      else (Without(cleared, item.backup), [])
  }

  /** Replay a journal, newest record first. */
  function Replay(fs: Tree, items: seq<Item>): (Tree, seq<Fault>)
    decreases |items|
  {
    if items == [] then (fs, [])
    else
      var step := ReplayItem(fs, items[|items| - 1]);
      var rest := Replay(step.0, items[..|items| - 1]);
      (rest.0, step.1 + rest.1)
  }

  // ------------------------------------------------------------- invariant

  predicate Covered(q: Path, items: seq<Item>) {
    exists k :: 0 <= k < |items| && Under(q, items[k].path)
  }

  /** The state of this file is among the records already. */
  ghost predicate FileKept(items: seq<Item>, path: Path) {
    exists item :: item in items && item.kind == FileState && item.path == path
  }

  lemma KeptSomewhere(items: seq<Item>, path: Path)
    ensures FileKept(items, path) <==>
              exists k :: 0 <= k < |items| && items[k].kind == FileState && items[k].path == path
    ensures FileKept(items, path) ==> Covered(path, items)
  {
  }

  predicate Same(a: Tree, b: Tree, q: Path) {
    if q in a then q in b && a[q] == b[q] else q !in b
  }

  /** Equal everywhere except below recorded paths and at scratch paths. */
  ghost predicate Agree(a: Tree, b: Tree, items: seq<Item>, scratch: iset<Path>) {
    forall q {:trigger Same(a, b, q)} :: !Covered(q, items) && q !in scratch ==> Same(a, b, q)
  }

  /** `item` was recorded in state `base`: the backup is a fresh sibling. */
  ghost predicate Recorded(base: Tree, item: Item, prior: seq<Item>, scratch: iset<Path>) {
    && WellFormed(base)
    && item.existed == (item.path in base)
    && Siblings(item.path, item.backup)
    && (forall q :: q in base ==> !Under(q, item.backup))
    && (forall q :: Under(q, item.backup) ==> q !in scratch)
    && (forall k :: 0 <= k < |prior| ==> !Under(prior[k].path, item.backup))
  }

  /** The state right after the record: its backup copy is in place. */
  function Backed(base: Tree, item: Item): Tree {
    if item.existed then Copied(base, item.path, item.backup) else base
  }

  /** Replaying `items` from `fs` leads back to `origin`: `bases` are the states in which
      the records were made, and since then only recorded subtrees and scratch changed. */
  ghost predicate Restorable(fs: Tree, origin: Tree, items: seq<Item>, bases: seq<Tree>, scratch: iset<Path>)
    decreases |items|
  {
    && |bases| == |items|
    && if items == [] then Agree(fs, origin, [], scratch)
       else
         var n := |items| - 1;
         && Restorable(bases[n], origin, items[..n], bases[..n], scratch)
         && Recorded(bases[n], items[n], items[..n], scratch)
         && Agree(fs, Backed(bases[n], items[n]), items, scratch)
  }

  lemma AgreeTransitive(a: Tree, b: Tree, c: Tree, items: seq<Item>, scratch: iset<Path>)
    requires Agree(a, b, items, scratch) && Agree(b, c, items, scratch)
    ensures Agree(a, c, items, scratch)
  {
    forall q | !Covered(q, items) && q !in scratch
      ensures Same(a, c, q)
    {
      assert Same(a, b, q) && Same(b, c, q);
    }
  }

  lemma UnderTransitive(a: Path, b: Path, c: Path)
    requires Under(a, b) && Under(b, c)
    ensures Under(a, c)
  {
    assert a[..|c|] == a[..|b|][..|c|];
  }

  /** A sibling of a path lies below every proper ancestor of it. */
  lemma SiblingUnder(p: Path, b: Path, a: Path)
    requires Siblings(p, b) && Under(b, a) && a != b
    ensures Under(p, a)
  {
    assert |a| < |b| && |p| == |Parent(p)| + 1 && |b| == |Parent(b)| + 1;
    assert p[..|a|] == Parent(p)[..|a|] == Parent(b)[..|a|] == b[..|a|];
  }

  lemma CoveredMore(q: Path, items: seq<Item>, item: Item)
    ensures Covered(q, items + [item]) <==> Covered(q, items) || Under(q, item.path)
  {
    if Covered(q, items) {
      var k :| 0 <= k < |items| && Under(q, items[k].path);
      assert (items + [item])[k] == items[k];
    }
    if Under(q, item.path) {
      assert (items + [item])[|items|] == item;
    }
  }

  lemma SiblingsDisjoint(p: Path, b: Path, q: Path)
    requires Siblings(p, b) && Under(q, b)
    ensures !Under(q, p)
  {
    assert |p| == |Parent(p)| + 1 && |b| == |Parent(b)| + 1;
  }

  /** Two paths above a third are above one another. */
  lemma AboveTheSame(a: Path, b: Path, q: Path)
    requires Under(q, a) && Under(q, b)
    ensures Under(a, b) || Under(b, a)
  {
    if |a| <= |b| {
      assert b[..|a|] == q[..|b|][..|a|];
    } else {
      assert a[..|b|] == q[..|a|][..|b|];
    }
  }

  /** In a file tree nothing exists below an absent path, nor below anything but a directory. */
  lemma {:induction false} AncestorsExist(fs: Tree, q: Path, p: Path)
    requires WellFormed(fs) && q in fs && Under(q, p)
    ensures p in fs && (q != p ==> fs[p].Directory?)
    decreases |q|
  {
    if q != p {
      assert HasParent(fs, q);
      assert Parent(q)[..|p|] == q[..|p|];
      AncestorsExist(fs, Parent(q), p);
    }
  }

  lemma BackupNotCovered(base: Tree, item: Item, prior: seq<Item>, scratch: iset<Path>, q: Path)
    requires Recorded(base, item, prior, scratch)
    requires Under(q, item.backup) && !Covered(item.path, prior)
    ensures !Covered(q, prior)
  {
    forall k | 0 <= k < |prior|
      ensures !Under(q, prior[k].path)
    {
      if Under(q, prior[k].path) {
        AboveTheSame(prior[k].path, item.backup, q);
        SiblingUnder(item.path, item.backup, prior[k].path);
      }
    }
  }

  /** A backup that an earlier record does not cover is untouched when it is needed. */
  lemma BackupIntact(fs: Tree, base: Tree, item: Item, prior: seq<Item>, scratch: iset<Path>, q: Path)
    requires Recorded(base, item, prior, scratch)
    requires Agree(fs, Backed(base, item), prior + [item], scratch)
    requires Under(q, item.backup) && !Covered(item.path, prior)
    ensures Same(fs, Backed(base, item), q)
  {
    CoveredMore(q, prior, item);
    BackupNotCovered(base, item, prior, scratch, q);
    SiblingsDisjoint(item.path, item.backup, q);
  }

  lemma NotCoveredAbove(q: Path, p: Path, prior: seq<Item>)
    requires Under(q, p) && !Covered(q, prior)
    ensures !Covered(p, prior)
  {
    forall k | 0 <= k < |prior|
      ensures !Under(p, prior[k].path)
    {
      if Under(p, prior[k].path) {
        UnderTransitive(q, p, prior[k].path);
      }
    }
  }

  /** One replayed record leads back to the state it was made in. */
  lemma ReplayItemUndoes(fs: Tree, base: Tree, item: Item, prior: seq<Item>, scratch: iset<Path>)
    requires WellFormed(fs) && Recorded(base, item, prior, scratch)
    requires Agree(fs, Backed(base, item), prior + [item], scratch)
    ensures Agree(ReplayItem(fs, item).0, base, prior, scratch)
  {
    forall q | !Covered(q, prior) && q !in scratch
      ensures Same(ReplayItem(fs, item).0, base, q)
    {
      if Under(q, item.path) {
        UndoesRecorded(fs, base, item, prior, scratch, q);
      } else {
        UndoesElsewhere(fs, base, item, prior, scratch, q);
      }
    }
  }

  /** What clearing a path means, whether or not it exists. */
  lemma Cleared(fs: Tree, p: Path)
    requires WellFormed(fs)
    ensures (if p in fs then Without(fs, p) else fs) == Without(fs, p)
  {
    forall q | q in fs && Under(q, p)
      ensures p in fs
    {
      AncestorsExist(fs, q, p);
    }
  }

  /** At paths outside the recorded subtree only the backup copy had appeared. */
  lemma UndoesElsewhere(fs: Tree, base: Tree, item: Item, prior: seq<Item>, scratch: iset<Path>, q: Path)
    requires WellFormed(fs) && Recorded(base, item, prior, scratch)
    requires Agree(fs, Backed(base, item), prior + [item], scratch)
    requires !Covered(q, prior) && q !in scratch && !Under(q, item.path)
    ensures Same(ReplayItem(fs, item).0, base, q)
  {
    CoveredMore(q, prior, item);
    Cleared(fs, item.path);
    assert Same(fs, Backed(base, item), q);
    if Under(q, item.backup) && q in fs {
      AncestorsExist(fs, q, item.backup);
      SiblingsDisjoint(item.path, item.backup, item.backup);
      KeepsParent(fs, item);
    }
  }

  lemma KeepsParent(fs: Tree, item: Item)
    requires WellFormed(fs) && Siblings(item.path, item.backup) && item.backup in fs
    ensures HasParent(Without(fs, item.path), item.path)
  {
    assert HasParent(fs, item.backup);
  }

  /** In the recorded subtree the backup copy comes back. */
  lemma UndoesRecorded(fs: Tree, base: Tree, item: Item, prior: seq<Item>, scratch: iset<Path>, q: Path)
    requires WellFormed(fs) && Recorded(base, item, prior, scratch)
    requires Agree(fs, Backed(base, item), prior + [item], scratch)
    requires !Covered(q, prior) && Under(q, item.path)
    ensures Same(ReplayItem(fs, item).0, base, q)
  {
    NotCoveredAbove(q, item.path, prior);
    Cleared(fs, item.path);
    if item.existed {
      var m := Moved(q, item.path, item.backup);
      assert Moved(m, item.backup, item.path) == q;
      assert Moved(item.backup, item.backup, item.path) == item.path;
      BackupIntact(fs, base, item, prior, scratch, item.backup);
      BackupIntact(fs, base, item, prior, scratch, m);
      SiblingsDisjoint(item.path, item.backup, item.backup);
      SiblingsDisjoint(item.path, item.backup, m);
      SiblingsDisjoint(item.backup, item.path, q);
      KeepsParent(fs, item);
    } else if q in base {
      AncestorsExist(base, q, item.path);
    }
  }

  /** Replaying keeps the tree a tree. */
  lemma ReplayItemWellFormed(fs: Tree, item: Item)
    requires WellFormed(fs) && Siblings(item.path, item.backup)
    ensures WellFormed(ReplayItem(fs, item).0)
  {
    Cleared(fs, item.path);
    WithoutWellFormed(fs, item.path);
    var cleared := Without(fs, item.path);
    WithoutWellFormed(cleared, item.backup);
    if item.existed && item.backup in cleared && HasParent(cleared, item.path) {
      CopiedWellFormed(cleared, item.backup, item.path);
      WithoutWellFormed(Copied(cleared, item.backup, item.path), item.backup);
    }
  }

  lemma WithoutWellFormed(fs: Tree, p: Path)
    requires WellFormed(fs)
    ensures WellFormed(Without(fs, p))
  {
    forall q | q in Without(fs, p)
      ensures HasParent(Without(fs, p), q)
    {
      assert HasParent(fs, q);
      if q != [] && Under(Parent(q), p) {
        UnderTransitive(q, Parent(q), p);
      }
    }
  }

  lemma CopyOneMore(fs: Tree, done: set<Path>, node: Path, src: Path, dst: Path)
    requires node in fs && Under(node, src) && (forall q :: q in done ==> q in fs && Under(q, src))
    requires forall q :: q in fs ==> !Under(q, dst)
    ensures PartlyCopied(fs, done, src, dst)[Moved(node, src, dst) := fs[node]]
         == PartlyCopied(fs, done + {node}, src, dst)
    ensures PartlyCopied(fs, done, src, dst)[node] == fs[node]
  {
    MovedBack(node, src, dst);
    forall q | Under(q, dst) && Moved(q, dst, src) == node
      ensures q == Moved(node, src, dst)
    {
      MovedBack(q, dst, src);
    }
  }

  /** Copying parents before children never leaves an orphan node. */
  lemma PartlyCopiedWellFormed(fs: Tree, done: set<Path>, src: Path, dst: Path)
    requires WellFormed(fs) && HasParent(fs, dst) && dst != []
    requires forall q :: q in fs ==> !Under(q, dst)
    requires forall q :: q in done ==> q in fs && Under(q, src) && (q != src ==> Parent(q) in done)
    ensures WellFormed(PartlyCopied(fs, done, src, dst))
  {
    var r := PartlyCopied(fs, done, src, dst);
    forall q | q in r
      ensures HasParent(r, q)
    {
      if q in fs {
        assert HasParent(fs, q);
      } else if q != dst {
        var m := Moved(q, dst, src);
        assert HasParent(fs, m);
        assert Under(Parent(q), dst) && Moved(Parent(q), dst, src) == Parent(m);
      }
    }
  }

  lemma CopiedWellFormed(fs: Tree, src: Path, dst: Path)
    requires WellFormed(fs) && HasParent(fs, dst) && dst != [] && src in fs
    requires forall q :: q in fs ==> !Under(q, dst)
    ensures WellFormed(Copied(fs, src, dst))
  {
    var all := set q | q in fs && Under(q, src);
    forall q | q in all && q != src
      ensures Parent(q) in all
    {
      assert HasParent(fs, q);
      assert Parent(q)[..|src|] == q[..|src|];
    }
    PartlyCopiedWellFormed(fs, all, src, dst);
  }

  ghost function Shortest(paths: set<Path>): (p: Path)
    requires paths != {}
    ensures p in paths && forall q :: q in paths ==> |p| <= |q|
  {
    var p :| p in paths;
    if paths == {p} then p else
      var r := Shortest(paths - {p});
      if |p| <= |r| then p else r
  }

  ghost function Longest(paths: set<Path>): (p: Path)
    requires paths != {}
    ensures p in paths && forall q :: q in paths ==> |q| <= |p|
  {
    var p :| p in paths;
    if paths == {p} then p else
      var r := Longest(paths - {p});
      if |r| <= |p| then p else r
  }

  /** Some node whose parent is already copied is still to do. */
  lemma NextToCopy(fs: Tree, done: set<Path>, todo: set<Path>, src: Path)
    requires WellFormed(fs) && todo != {}
    requires todo !! done && todo + done == set q | q in fs && Under(q, src)
    ensures exists q :: q in todo && (q == src || Parent(q) in done)
  {
    var q := Shortest(todo);
    if q != src {
      assert HasParent(fs, q);
      assert Parent(q)[..|src|] == q[..|src|];
      assert Parent(q) in todo + done;
    }
  }

  /** Removing children before parents never leaves an orphan node. */
  lemma PartlyRemovedWellFormed(fs: Tree, gone: set<Path>)
    requires WellFormed(fs)
    requires forall q :: q in fs && q != [] && Parent(q) in gone ==> q in gone
    ensures WellFormed(fs - gone)
  {
    forall q | q in fs - gone
      ensures HasParent(fs - gone, q)
    {
      assert HasParent(fs, q);
    }
  }

  /** Some node without remaining children is still to remove. */
  lemma NextToRemove(fs: Tree, todo: set<Path>, p: Path)
    requires todo != {} && forall q :: q in todo ==> Under(q, p)
    ensures exists q :: q in todo && forall c :: c in todo ==> c == [] || Parent(c) != q
  {
    var q := Longest(todo);
  }

  /** Reverse replay restores the whole tree: from any state that recorded mutations can
      leave, however far they got, every path outside scratch is as it was at the start. */
  lemma {:induction false} ReplayRestores(fs: Tree, origin: Tree, items: seq<Item>, bases: seq<Tree>,
                                          scratch: iset<Path>)
    requires WellFormed(fs) && Restorable(fs, origin, items, bases, scratch)
    ensures Agree(Replay(fs, items).0, origin, [], scratch)
    ensures WellFormed(Replay(fs, items).0)
    decreases |items|
  {
    if items != [] {
      var n := |items| - 1;
      assert items == items[..n] + [items[n]];
      var once := ReplayItem(fs, items[n]).0;
      ReplayItemUndoes(fs, bases[n], items[n], items[..n], scratch);
      ReplayItemWellFormed(fs, items[n]);
      RestorableFrom(once, bases[n], origin, items[..n], bases[..n], scratch);
      ReplayRestores(once, origin, items[..n], bases[..n], scratch);
    }
  }

  /** Restorability only looks at the state outside recorded subtrees and scratch. */
  lemma RestorableFrom(fs: Tree, other: Tree, origin: Tree, items: seq<Item>, bases: seq<Tree>, scratch: iset<Path>)
    requires Restorable(other, origin, items, bases, scratch) && Agree(fs, other, items, scratch)
    ensures Restorable(fs, origin, items, bases, scratch)
  {
    if items == [] {
      AgreeTransitive(fs, other, origin, items, scratch);
    } else {
      var n := |items| - 1;
      AgreeTransitive(fs, other, Backed(bases[n], items[n]), items, scratch);
    }
  }

  /** A record is left unreplayed exactly when its required backup is gone, and then an
      earlier record covers its path. */
  lemma FaultIsMissingBackup(fs: Tree, base: Tree, item: Item, prior: seq<Item>, scratch: iset<Path>)
    requires WellFormed(fs) && Recorded(base, item, prior, scratch)
    requires Agree(fs, Backed(base, item), prior + [item], scratch)
    ensures ReplayItem(fs, item).1 == if item.existed && item.backup !in fs then [MissingBackup(item.path)] else []
    ensures item.existed && item.backup !in fs ==> ReplayItem(fs, item).0 == fs && Covered(item.path, prior)
  {
    Cleared(fs, item.path);
    SiblingsDisjoint(item.path, item.backup, item.backup);
    if item.existed {
      assert Moved(item.backup, item.backup, item.path) == item.path;
      if !Covered(item.path, prior) {
        BackupIntact(fs, base, item, prior, scratch, item.backup);
      }
      if item.backup in fs {
        KeepsParent(fs, item);
      }
    }
  }

  /** Replay reports only missing backups, and only of records that an earlier record
      covers; the journal without such nesting replays without any report. */
  lemma {:induction false} ReplayReports(fs: Tree, origin: Tree, items: seq<Item>, bases: seq<Tree>,
                                         scratch: iset<Path>)
    requires WellFormed(fs) && Restorable(fs, origin, items, bases, scratch)
    ensures forall f :: f in Replay(fs, items).1 ==>
              exists j :: 0 <= j < |items| && f == MissingBackup(items[j].path) && Covered(items[j].path, items[..j])
    ensures (forall j :: 0 <= j < |items| ==> !Covered(items[j].path, items[..j])) ==> Replay(fs, items).1 == []
    decreases |items|
  {
    if items != [] {
      var n := |items| - 1;
      var prior := items[..n];
      assert items == prior + [items[n]];
      var once := ReplayItem(fs, items[n]).0;
      FaultIsMissingBackup(fs, bases[n], items[n], prior, scratch);
      ReplayItemUndoes(fs, bases[n], items[n], prior, scratch);
      ReplayItemWellFormed(fs, items[n]);
      RestorableFrom(once, bases[n], origin, prior, bases[..n], scratch);
      ReplayReports(once, origin, prior, bases[..n], scratch);
      forall j | 0 <= j < n
        ensures prior[j] == items[j] && prior[..j] == items[..j]
      {
      }
      forall f | f in Replay(fs, items).1
        ensures exists j :: 0 <= j < |items| && f == MissingBackup(items[j].path) && Covered(items[j].path, items[..j])
      {
        if f in Replay(once, prior).1 {
          var j :| 0 <= j < n && f == MissingBackup(prior[j].path) && Covered(prior[j].path, prior[..j]);
          assert f == MissingBackup(items[j].path) && Covered(items[j].path, items[..j]);
        } else {
          assert f == MissingBackup(items[n].path) && Covered(items[n].path, items[..n]);
        }
      }
    }
  }

  /** More scratch space is harmless when no backup lies in it. */
  lemma {:induction false} RestorableLoosen(fs: Tree, origin: Tree, items: seq<Item>, bases: seq<Tree>,
                                            scratch: iset<Path>, extra: iset<Path>)
    requires Restorable(fs, origin, items, bases, scratch)
    requires forall k, q :: 0 <= k < |items| && Under(q, items[k].backup) ==> q !in extra
    ensures Restorable(fs, origin, items, bases, scratch + extra)
    decreases |items|
  {
    if items != [] {
      var n := |items| - 1;
      assert forall k :: 0 <= k < n ==> items[..n][k] == items[k];
      RestorableLoosen(bases[n], origin, items[..n], bases[..n], scratch, extra);
    }
  }

  ghost function Below(p: Path): iset<Path> {
    iset q | Under(q, p)
  }

  /** Replaying an item changes nothing outside its path and its backup. */
  lemma ReplayItemElsewhere(fs: Tree, item: Item, q: Path)
    requires !Under(q, item.path) && !Under(q, item.backup)
    ensures Same(ReplayItem(fs, item).0, fs, q)
  {
  }

  /** The record lies wholly where damage was done. */
  ghost predicate Inside(item: Item, damage: iset<Path>) {
    forall q :: Under(q, item.path) || Under(q, item.backup) ==> q in damage
  }

  /** No part of the record's backup was damaged. */
  ghost predicate BackupSafe(item: Item, damage: iset<Path>) { forall q :: Under(q, item.backup) ==> q !in damage }

  /** Replaying an undamaged record restores it as ever; a record inside the damage stays inside. */
  lemma ReplayBesideDamage(fs: Tree, left: Tree, base: Tree, item: Item, prior: seq<Item>, scratch: iset<Path>,
                           damage: iset<Path>)
    requires WellFormed(fs) && Recorded(base, item, prior, scratch)
    requires Agree(left, Backed(base, item), prior + [item], scratch)
    requires Agree(fs, left, prior + [item], scratch + damage)
    requires Inside(item, damage) || BackupSafe(item, damage)
    ensures Agree(ReplayItem(fs, item).0, base, prior, scratch + damage)
  {
    hide Copied, Without, ReplayItem, Covered;
    var wider, once := scratch + damage, ReplayItem(fs, item).0;
    AgreeWider(left, Backed(base, item), prior + [item], scratch, wider);
    AgreeTransitive(fs, left, Backed(base, item), prior + [item], wider);
    if BackupSafe(item, damage) {
      ReplayItemUndoes(fs, base, item, prior, wider);
    } else {
      forall q {:trigger Same(once, base, q)} | !Covered(q, prior) && q !in wider
        ensures Same(once, base, q)
      {
        assert !Under(q, item.path) && !Under(q, item.backup);
        ReplayItemElsewhere(fs, item, q);
        CoveredMore(q, prior, item);
        assert Same(fs, Backed(base, item), q);
        BackedElsewhere(base, item, q);
      }
    }
  }

  lemma BackedElsewhere(base: Tree, item: Item, q: Path)
    requires !Under(q, item.path) && !Under(q, item.backup)
    ensures Same(Backed(base, item), base, q)
  {
  }

  /**
   * Whatever was damaged, replay restores everything outside the damage, as
   * long as each record lies inside it or has its backup outside.
   */
  lemma {:induction false} DamageIsContained(fs: Tree, left: Tree, origin: Tree, items: seq<Item>, bases: seq<Tree>,
                                             scratch: iset<Path>, damage: iset<Path>)
    requires WellFormed(fs) && Restorable(left, origin, items, bases, scratch)
    requires Agree(fs, left, items, scratch + damage)
    requires forall j :: 0 <= j < |items| ==> Inside(items[j], damage) || BackupSafe(items[j], damage)
    ensures Agree(Replay(fs, items).0, origin, [], scratch + damage)
    decreases |items|
  {
    hide Copied, Without, ReplayItem, Covered, Inside, BackupSafe;
    if items == [] {
      AgreeWider(left, origin, items, scratch, scratch + damage);
      AgreeTransitive(fs, left, origin, items, scratch + damage);
    } else {
      var n := |items| - 1;
      var prior := items[..n];
      assert items == prior + [items[n]];
      ReplayBesideDamage(fs, left, bases[n], items[n], prior, scratch, damage);
      ReplayItemWellFormed(fs, items[n]);
      DamageIsContained(ReplayItem(fs, items[n]).0, bases[n], origin, prior, bases[..n], scratch, damage);
    }
  }

  /** The given records' backups are gone. */
  ghost predicate Gone(fs: Tree, items: seq<Item>, lost: set<nat>) {
    forall k :: k in lost && k < |items| ==> items[k].existed && items[k].backup !in fs
  }

  /** No later record that is still replayed puts a lost backup back. */
  ghost predicate StaysGone(items: seq<Item>, lost: set<nat>) {
    forall j, k :: k in lost && j !in lost && k < j < |items| ==>
      !Under(items[k].backup, items[j].path) && !Under(items[k].backup, items[j].backup)
  }

  /** Such records are all reported. */
  lemma {:induction false} LostAreReported(fs: Tree, items: seq<Item>, lost: set<nat>, k: nat)
    requires k in lost && k < |items| && Gone(fs, items, lost) && StaysGone(items, lost)
    ensures MissingBackup(items[k].path) in Replay(fs, items).1
    decreases |items|
  {
    hide ReplayItem;
    var n := |items| - 1;
    var prior := items[..n];
    if n in lost {
      SkippedStep(fs, items);
    } else {
      forall i | i in lost && i < n
        ensures items[i].backup !in ReplayItem(fs, items[n]).0
      {
        ReplayItemElsewhere(fs, items[n], items[i].backup);
      }
    }
    if k < n {
      assert forall i :: 0 <= i < n ==> prior[i] == items[i];
      LostAreReported(ReplayItem(fs, items[n]).0, prior, lost, k);
    }
  }

  /** What the loss of some backups can touch: the skipped paths and the backups themselves. */
  ghost function LossOf(items: seq<Item>, lost: set<nat>): iset<Path> {
    iset q | LossAt(items, lost, q)
  }

  ghost predicate LossAt(items: seq<Item>, lost: set<nat>, q: Path) {
    exists k :: k in lost && k < |items| && Touches(items[k], q)
  }

  predicate Touches(item: Item, q: Path) { Under(q, item.path) || Under(q, item.backup) }

  /** The record is nested in the path of a lost one. */
  predicate NestedIn(item: Item, other: Item) { Under(item.path, other.path) && item.path != other.path }

  /** The record's backup has nothing to do with a lost one's path and backup. */
  ghost predicate ApartFrom(item: Item, other: Item) {
    forall q :: Under(q, item.backup) ==> !Under(q, other.path) && !Under(q, other.backup)
  }

  lemma NestedIsInside(items: seq<Item>, lost: set<nat>, j: nat, k: nat)
    requires j < |items| && k < |items| && k in lost && NestedIn(items[j], items[k])
    requires Siblings(items[j].path, items[j].backup)
    ensures Inside(items[j], LossOf(items, lost))
  {
    var item, other := items[j], items[k];
    forall q | Under(q, item.path) || Under(q, item.backup)
      ensures Under(q, other.path)
    {
    }
  }

  /**
   * Any number of backups lost to somebody else, nested records included: each
   * is reported and skipped, every other record is still replayed, and only
   * what lies below a skipped path can differ from before the transaction.
   */
  lemma LostBackupsAreSkipped(fs: Tree, left: Tree, origin: Tree, items: seq<Item>, bases: seq<Tree>,
                              scratch: iset<Path>, lost: set<nat>)
    requires WellFormed(fs) && Restorable(left, origin, items, bases, scratch)
    requires Agree(fs, left, items, scratch + LossOf(items, lost))
    requires (forall k :: k in lost ==> k < |items|) && Gone(fs, items, lost)
    requires forall j, k :: 0 <= j < |items| && k in lost && j !in lost ==>
               NestedIn(items[j], items[k]) || ApartFrom(items[j], items[k])
    requires forall j, k :: k in lost && j !in lost && k < j < |items| ==> !Under(items[k].backup, items[j].path)
    ensures forall k :: k in lost ==> MissingBackup(items[k].path) in Replay(fs, items).1
    ensures Agree(Replay(fs, items).0, origin, [], scratch + LossOf(items, lost))
  {
    var damage := LossOf(items, lost);
    forall j | 0 <= j < |items|
      ensures Inside(items[j], damage) || BackupSafe(items[j], damage)
    {
      if k :| k in lost && j !in lost && NestedIn(items[j], items[k]) {
        RecordedSiblings(left, origin, items, bases, scratch, j);
        NestedIsInside(items, lost, j, k);
      }
    }
    StayGone(left, origin, items, bases, scratch, lost);
    hide Replay, Inside, BackupSafe, LossOf, Restorable, Agree;
    forall k | k in lost
      ensures MissingBackup(items[k].path) in Replay(fs, items).1
    {
      LostAreReported(fs, items, lost, k);
    }
    DamageIsContained(fs, left, origin, items, bases, scratch, damage);
  }

  lemma StayGone(left: Tree, origin: Tree, items: seq<Item>, bases: seq<Tree>, scratch: iset<Path>, lost: set<nat>)
    requires Restorable(left, origin, items, bases, scratch)
    requires forall j, k :: 0 <= j < |items| && k in lost && k < |items| && j !in lost ==>
               NestedIn(items[j], items[k]) || ApartFrom(items[j], items[k])
    requires forall j, k :: k in lost && j !in lost && k < j < |items| ==> !Under(items[k].backup, items[j].path)
    ensures StaysGone(items, lost)
  {
    forall j, k | k in lost && j !in lost && k < j < |items|
      ensures !Under(items[k].backup, items[j].backup)
    {
      UnderItself(items[k].backup);
      RecordedSiblings(left, origin, items, bases, scratch, j);
      RecordedSiblings(left, origin, items, bases, scratch, k);
      if NestedIn(items[j], items[k]) {
        NestedBackup(items[j], items[k]);
      }
    }
  }

  /** A backup beside a nested path cannot hold the lost backup, which lies outside. */
  lemma NestedBackup(item: Item, other: Item)
    requires NestedIn(item, other) && Siblings(item.path, item.backup) && Siblings(other.path, other.backup)
    ensures !Under(other.backup, item.backup)
  {
    assert |item.backup| == |item.path| && |other.backup| == |other.path|;
  }

  lemma {:induction false} RecordedSiblings(left: Tree, origin: Tree, items: seq<Item>, bases: seq<Tree>,
                                            scratch: iset<Path>, j: nat)
    requires Restorable(left, origin, items, bases, scratch) && j < |items|
    ensures Siblings(items[j].path, items[j].backup)
    decreases |items|
  {
    var n := |items| - 1;
    if j < n {
      RecordedSiblings(bases[n], origin, items[..n], bases[..n], scratch, j);
    }
  }

  lemma UnderItself(p: Path)
    ensures Under(p, p)
  {
  }

  lemma AgreeWider(a: Tree, b: Tree, items: seq<Item>, scratch: iset<Path>, wider: iset<Path>)
    requires Agree(a, b, items, scratch) && scratch <= wider
    ensures Agree(a, b, items, wider)
  {
    hide Covered, Same;
  }

  lemma SkippedStep(fs: Tree, items: seq<Item>)
    requires items != [] && items[|items| - 1].existed && items[|items| - 1].backup !in fs
    ensures ReplayItem(fs, items[|items| - 1]).0 == fs
    ensures MissingBackup(items[|items| - 1].path) in Replay(fs, items).1
  {
  }

  /** A backup name that nothing uses yet. */
  ghost predicate FreshName(fs: Tree, items: seq<Item>, scratch: iset<Path>, backup: Path) {
    && (forall q :: q in fs ==> !Under(q, backup))
    && (forall q :: Under(q, backup) ==> q !in scratch)
    && (forall k :: 0 <= k < |items| ==>
          !Under(items[k].path, backup) && !Under(items[k].backup, backup) && !Under(backup, items[k].backup))
  }

  lemma FreshDisjoint(fs: Tree, items: seq<Item>, scratch: iset<Path>, backup: Path)
    requires FreshName(fs, items, scratch, backup)
    ensures forall k, q :: 0 <= k < |items| && Under(q, items[k].backup) ==> q !in Below(backup)
  {
    forall k, q | 0 <= k < |items| && Under(q, items[k].backup)
      ensures q !in Below(backup)
    {
      if Under(q, backup) {
        AboveTheSame(items[k].backup, backup, q);
      }
    }
  }

  // ----------------------------------------------------------- transaction

  /** A state with a fresh backup in place is restorable through one more record. */
  lemma OneMoreRecord(before: Tree, item: Item, origin: Tree, items: seq<Item>, bases: seq<Tree>, scratch: iset<Path>)
    requires WellFormed(before) && Restorable(before, origin, items, bases, scratch)
    requires Siblings(item.path, item.backup) && FreshName(before, items, scratch, item.backup)
    requires item.existed == (item.path in before)
    ensures Restorable(Backed(before, item), origin, items + [item], bases + [before], scratch)
    ensures Covered(item.path, items + [item])
  {
    hide Backed, WellFormed;
    var more, states := items + [item], bases + [before];
    assert more[..|more| - 1] == items && states[..|states| - 1] == bases;
    assert more[|more| - 1] == item;
    UnderItself(item.path);
  }

  /** A tree and the journal of the transaction that is changing it. Every step can fail;
      in a calm environment none does. */
  class Transaction {
    var fs: Tree
    var touched: seq<Item>
    /** The tree when the transaction began, and at each record. */
    ghost var origin: Tree
    ghost var bases: seq<Tree>
    /** Staging space, and what an interrupted backup copy left behind. */
    ghost var scratch: iset<Path>

    ghost predicate Valid()
      reads this
    {
      WellFormed(fs) && Restorable(fs, origin, touched, bases, scratch)
    }

    constructor (fs: Tree, ghost scratch: iset<Path>)
      requires WellFormed(fs)
      ensures Valid() && this.fs == fs && origin == fs && touched == [] && this.scratch == scratch
    {
      this.fs, touched, origin, bases, this.scratch := fs, [], fs, [], scratch;
    }

    /** Replay the journal backwards, collecting what could not be replayed. */
    method RestoreFailedMutations() returns (faults: seq<Fault>)
      requires Valid()
      modifies this
      ensures touched == old(touched) && origin == old(origin) && scratch == old(scratch)
      ensures fs == Replay(old(fs), old(touched)).0 && faults == Replay(old(fs), old(touched)).1
      ensures WellFormed(fs) && Agree(fs, origin, [], scratch)
    {
      hide Restorable, Agree, WellFormed, ReplayItem;
      ReplayRestores(fs, origin, touched, bases, scratch);
      faults := [];
      var n := |touched|;
      assert touched[..n] == touched;
      while n > 0
        invariant 0 <= n <= |touched| && touched == old(touched) && origin == old(origin) && scratch == old(scratch)
        invariant Replay(old(fs), old(touched)).0 == Replay(fs, touched[..n]).0
        invariant Replay(old(fs), old(touched)).1 == faults + Replay(fs, touched[..n]).1
      {
        n := n - 1;
        assert touched[..n + 1][..n] == touched[..n];
        ghost var reported := faults;
        var fault := ReplayOne(touched[n]);
        faults := faults + fault;
        assert faults + Replay(fs, touched[..n]).1 == reported + (fault + Replay(fs, touched[..n]).1);
      }
      assert faults + [] == faults;
    }

    method ReplayOne(item: Item) returns (fault: seq<Fault>)
      modifies this`fs
      ensures fs == ReplayItem(old(fs), item).0 && fault == ReplayItem(old(fs), item).1
    {
      if item.existed && item.backup !in fs {
        return [MissingBackup(item.path)];
      }
      if item.path in fs {
        fs := Without(fs, item.path);
      }
      if item.existed {
        if item.backup in fs && HasParent(fs, item.path) {
          fs := Without(Copied(fs, item.backup, item.path), item.backup);
        } else {
          return [CannotRestore(item.path)];
        }
      } else {
        fs := Without(fs, item.backup);
      }
      return [];
    }

    /** Any change below recorded paths or in scratch keeps the journal restorable. */
    ghost method Changed(before: Tree)
      requires WellFormed(fs) && Restorable(before, origin, touched, bases, scratch)
      requires Agree(fs, before, touched, scratch)
      ensures Valid()
    {
      RestorableFrom(fs, before, origin, touched, bases, scratch);
    }

    /** Copy a subtree node by node; it can stop after any node. */
    method CopyTree(src: Path, dst: Path, calm: bool) returns (ok: bool)
      requires WellFormed(fs) && src in fs && Siblings(src, dst)
      requires forall q :: q in fs ==> !Under(q, dst)
      modifies this`fs
      ensures WellFormed(fs)
      ensures forall q :: !Under(q, dst) ==> Same(fs, old(fs), q)
      ensures ok ==> fs == Copied(old(fs), src, dst)
      ensures calm ==> ok
    {
      ghost var start := fs;
      var done: set<Path>, todo := {}, set q | q in fs && Under(q, src);
      ghost var all := todo;
      assert HasParent(start, src);
      while todo != {}
        invariant todo !! done && todo + done == all
        invariant forall q :: q in done ==> q in start && Under(q, src) && (q != src ==> Parent(q) in done)
        invariant fs == PartlyCopied(start, done, src, dst)
        decreases todo
      {
        var stop: bool := *;
        if stop && !calm {
          break;
        }
        NextToCopy(start, done, todo, src);
        var node :| node in todo && (node == src || Parent(node) in done);
        CopyOneMore(start, done, node, src, dst);
        fs := fs[Moved(node, src, dst) := fs[node]];
        done, todo := done + {node}, todo - {node};
      }
      PartlyCopiedWellFormed(start, done, src, dst);
      ok := todo == {};
    }

    /** Remove a subtree node by node; it can stop after any node. */
    method RemovePath(p: Path, calm: bool) returns (ok: bool)
      requires WellFormed(fs)
      modifies this`fs
      ensures WellFormed(fs)
      ensures forall q :: !Under(q, p) ==> Same(fs, old(fs), q)
      ensures forall q :: q in fs ==> q in old(fs)
      ensures ok ==> fs == Without(old(fs), p)
      ensures calm ==> ok
    {
      ghost var start := fs;
      var gone: set<Path>, todo: set<Path> := {}, set q | q in fs && Under(q, p);
      ghost var all := todo;
      while todo != {}
        invariant todo !! gone && todo + gone == all && fs == start - gone
        invariant forall q :: q in start && q != [] && Parent(q) in gone ==> q in gone
        decreases todo
      {
        var stop: bool := *;
        if stop && !calm {
          break;
        }
        NextToRemove(start, todo, p);
        var node :| node in todo && forall c :: c in todo ==> c == [] || Parent(c) != node;
        NoChildLeft(start, gone, todo, p, node);
        fs := fs - {node};
        gone, todo := gone + {node}, todo - {node};
      }
      PartlyRemovedWellFormed(start, gone);
      ok := todo == {};
    }

    /** Back a path up and journal it, before anything below it changes. A file or node
        state is recorded once; an interrupted copy leaves only scratch behind. */
    method Record(kind: Kind, path: Path, backup: Path, calm: bool) returns (ok: bool)
      requires Valid() && Siblings(path, backup) && FreshName(fs, touched, scratch, backup)
      modifies this
      ensures Valid() && origin == old(origin)
      ensures forall q :: !Under(q, backup) ==> Same(fs, old(fs), q)
      ensures ok ==> Covered(path, touched) && scratch == old(scratch)
      ensures calm ==> ok
      ensures touched == old(touched) || touched == old(touched) + [Item(kind, path, backup, path in old(fs))]
      ensures ok ==> (touched == old(touched) <==> kind == FileState && FileKept(old(touched), path))
      ensures ok && touched == old(touched) ==> fs == old(fs)
      ensures scratch == old(scratch) || (!ok && scratch == old(scratch) + Below(backup))
    {
      hide FileKept, Under, Covered, Siblings;
      KeptSomewhere(touched, path);
      if kind == FileState
         && exists k :: 0 <= k < |touched| && touched[k].kind == FileState && touched[k].path == path
      {
        return true;
      }
      hide Restorable, WellFormed, Copied;
      var existed := path in fs;
      ghost var before := fs;
      if existed {
        ok := CopyTree(path, backup, calm);
        if !ok {
          Interrupted(before, backup);
          return;
        }
      }
      ok := Append(Item(kind, path, backup, existed), before, calm);
    }

    /** What an interrupted copy left behind becomes scratch. */
    ghost method Interrupted(before: Tree, backup: Path)
      requires WellFormed(fs) && Restorable(before, origin, touched, bases, scratch)
      requires FreshName(before, touched, scratch, backup)
      requires forall q :: !Under(q, backup) ==> Same(fs, before, q)
      modifies this`scratch
      ensures Valid() && scratch == old(scratch) + Below(backup)
    {
      FreshDisjoint(before, touched, scratch, backup);
      RestorableLoosen(before, origin, touched, bases, scratch, Below(backup));
      scratch := scratch + Below(backup);
      Changed(before);
    }

    /** Append one record. Its journal file may fail to be written; the record stays. */
    method Append(item: Item, ghost before: Tree, calm: bool) returns (ok: bool)
      requires WellFormed(before) && Restorable(before, origin, touched, bases, scratch)
      requires WellFormed(fs) && fs == Backed(before, item)
      requires Siblings(item.path, item.backup) && FreshName(before, touched, scratch, item.backup)
      requires item.existed == (item.path in before)
      modifies this`touched, this`bases
      ensures Valid() && touched == old(touched) + [item] && Covered(item.path, touched)
      ensures calm ==> ok
    {
      OneMoreRecord(before, item, origin, touched, bases, scratch);
      touched, bases := touched + [item], bases + [before];
      ok := *;
      ok := ok || calm;
    }

    /** Remove a recorded path; it can stop anywhere inside. */
    method Remove(path: Path, calm: bool) returns (ok: bool)
      requires Valid() && Covered(path, touched)
      modifies this`fs
      ensures Valid()
      ensures forall q :: !Under(q, path) ==> Same(fs, old(fs), q)
      ensures ok ==> forall q :: q in fs ==> !Under(q, path)
      ensures calm ==> ok
    {
      ghost var before := fs;
      ok := RemovePath(path, calm);
      CoveredBelow(path, touched);
      Changed(before);
    }

    /** Rename a staged tree onto a recorded, empty place. */
    method MoveInto(staged: Path, dest: Path, calm: bool) returns (ok: bool)
      requires Valid() && Covered(dest, touched) && dest != [] && HasParent(fs, dest)
      requires staged in fs && (forall q :: Under(q, staged) ==> q in scratch)
      requires (forall q :: q in fs ==> !Under(q, dest)) && Unrelated(staged, dest)
      modifies this`fs
      ensures Valid()
      ensures forall q :: !Under(q, dest) && !Under(q, staged) ==> Same(fs, old(fs), q)
      ensures ok ==> Installed(old(fs), fs, staged, dest)
      ensures !ok ==> fs == old(fs)
      ensures calm ==> ok
    {
      ok := *;
      ok := ok || calm;
      if ok {
        ghost var before := fs;
        fs := Without(Copied(fs, staged, dest), staged);
        CopiedWellFormed(before, staged, dest);
        WithoutWellFormed(Copied(before, staged, dest), staged);
        UnrelatedBelow(staged, dest);
        CoveredBelow(dest, touched);
        Changed(before);
      }
    }

    /** Write a package's artifact where it is staged, over whatever an earlier attempt left there; it can stop after
        any node. */
    method Stage(p: Package, calm: bool) returns (ok: bool)
      requires Valid() && Ready(fs, touched, scratch, p)
      modifies this`fs
      ensures Valid() && Ready(fs, touched, scratch, p)
      ensures forall q :: !Under(q, p.staged) ==> Same(fs, old(fs), q)
      ensures ok ==> Stands(fs, p.staged, p.artifact)
      ensures calm ==> ok
    {
      hide Restorable;
      ghost var start := fs;
      ok := RemovePath(p.staged, calm);
      if ok {
        ok := WriteTree(p.artifact, p.staged, calm);
      }
      Changed(start);
      StagingKeepsReady(start, fs, touched, scratch, p);
    }

    /** Write a tree node by node below a free path; it can stop after any node. */
    method WriteTree(artifact: Tree, dst: Path, calm: bool) returns (ok: bool)
      requires WellFormed(fs) && WellFormed(artifact) && dst != [] && HasParent(fs, dst)
      requires forall q :: q in fs ==> !Under(q, dst)
      modifies this`fs
      ensures WellFormed(fs)
      ensures forall q :: !Under(q, dst) ==> Same(fs, old(fs), q)
      ensures ok ==> Stands(fs, dst, artifact)
      ensures calm ==> ok
    {
      ghost var start := fs;
      var done: set<Path>, todo := {}, artifact.Keys;
      assert (set q | q in artifact && Under(q, [])) == artifact.Keys;
      while todo != {}
        invariant todo !! done && todo + done == artifact.Keys
        invariant forall q :: q in done ==> q != [] ==> Parent(q) in done
        invariant fs == PartlyWritten(start, artifact, done, dst)
        decreases todo
      {
        var stop: bool := *;
        if stop && !calm {
          break;
        }
        NextToCopy(artifact, done, todo, []);
        var node :| node in todo && (node == [] || Parent(node) in done);
        WriteOneMore(start, artifact, done, node, dst);
        fs := fs[dst + node := artifact[node]];
        done, todo := done + {node}, todo - {node};
      }
      PartlyWrittenWellFormed(start, artifact, done, dst);
      ok := todo == {};
    }

    /** Stage, back up, journal, remove, replace: in that order, failing after any step. */
    method InstallPackage(p: Package, calm: bool) returns (ok: bool)
      requires Valid() && Ready(fs, touched, scratch, p)
      modifies this
      ensures Valid() && origin == old(origin)
      ensures forall q :: Elsewhere(q, p) ==> Same(fs, old(fs), q)
      ensures ok ==> Stands(fs, p.dest, p.artifact) && scratch == old(scratch)
      ensures scratch == old(scratch) || scratch == old(scratch) + Below(p.backup)
      ensures touched == old(touched)
                || touched == old(touched) + [Item(ManagedPackage, p.dest, p.backup, p.dest in old(fs))]
      ensures ok ==> touched != old(touched)
      ensures calm ==> ok
    {
      hide Restorable, Agree, WellFormed;
      UnrelatedBelow(p.staged, p.backup);
      UnrelatedBelow(p.staged, p.dest);
      UnderItself(p.dest);
      ok := Stage(p, calm);
      if !ok {
        return;
      }
      ghost var start := fs;
      assert p.staged in fs by {
        StandsAt(fs, p.staged, p.artifact);
      }
      ok := Record(ManagedPackage, p.dest, p.backup, calm);
      if !ok {
        return;
      }
      ghost var recorded := fs;
      assert forall q :: Under(q, p.staged) ==> Same(recorded, start, q);
      ok := Remove(p.dest, calm);
      if !ok {
        return;
      }
      assert forall q :: Under(q, p.staged) ==> Same(fs, recorded, q);
      DestinationParent(start, fs, p);
      ghost var cleared := fs;
      ok := MoveInto(p.staged, p.dest, calm);
      if ok {
        StandsMoved(start, cleared, fs, p);
      }
    }

    /** Install every package, or put everything back. */
    method InstallAll(packages: seq<Package>, calm: bool) returns (ok: bool, faults: seq<Fault>)
      requires Valid() && touched == [] && fs == origin
      requires forall i :: 0 <= i < |packages| ==> Ready(fs, [], scratch, packages[i])
      requires forall i, j :: 0 <= i < j < |packages| ==> Apart(packages[i], packages[j])
      modifies this
      ensures WellFormed(fs) && old(scratch) <= scratch
      ensures calm ==> ok
      ensures ok ==> forall i :: 0 <= i < |packages| ==> Stands(fs, packages[i].dest, packages[i].artifact)
      ensures ok ==> LeavesRest(old(fs), fs, packages)
      ensures ok ==> Valid() && origin == old(fs) && Destinations(touched, packages, |packages|)
      ensures !ok ==> forall q :: q !in scratch ==> Same(fs, old(fs), q)
      ensures faults == []
      ensures forall q :: q in scratch && q !in old(scratch) ==>
                exists i :: 0 <= i < |packages| && Under(q, packages[i].backup)
    {
      hide LeavesRest, Stands, Restorable, Ready, Elsewhere, Apart;
      ghost var start, staging := fs, scratch;
      NothingTouched(fs, packages);
      faults := [];
      for n := 0 to |packages|
        invariant Valid() && origin == start && scratch == staging
        invariant forall i :: n <= i < |packages| ==> Ready(fs, touched, scratch, packages[i])
        invariant forall i :: 0 <= i < n ==> Stands(fs, packages[i].dest, packages[i].artifact)
        invariant Destinations(touched, packages, n)
        invariant LeavesRest(start, fs, packages)
      {
        ghost var before, items := fs, touched;
        ok := InstallPackage(packages[n], calm);
        if !ok {
          NothingToReport(fs, origin, touched, bases, scratch, packages);
          faults := RestoreFailedMutations();
          AgreeEverywhere(fs, start, scratch);
          return;
        }
        InstallLeavesOthers(before, fs, items, touched, scratch, packages, n);
        RestLeft(start, before, fs, packages, n);
      }
      ok := true;
    }

    /** After commit: drop every backup, and nothing else. */
    method CleanupBackups(calm: bool) returns (ok: bool)
      requires WellFormed(fs)
      modifies this`fs
      ensures WellFormed(fs)
      ensures forall q :: !InBackup(q, touched) ==> Same(fs, old(fs), q)
      ensures ok ==> forall q :: InBackup(q, touched) ==> q !in fs
      ensures calm ==> ok
    {
      for n := 0 to |touched|
        invariant WellFormed(fs)
        invariant forall q :: q in fs ==> q in old(fs)
        invariant forall q :: !InBackup(q, touched[..n]) ==> Same(fs, old(fs), q)
        invariant forall q :: InBackup(q, touched[..n]) ==> q !in fs
      {
        ghost var before := fs;
        ok := RemovePath(touched[n].backup, calm);
        forall q
          ensures InBackup(q, touched[..n + 1]) <==> InBackup(q, touched[..n]) || Under(q, touched[n].backup)
          ensures InBackup(q, touched[..n + 1]) ==> InBackup(q, touched)
          ensures !Under(q, touched[n].backup) ==> Same(fs, before, q)
        {
          InBackupMore(q, touched, n);
        }
        if !ok {
          return;
        }
      }
      assert touched[..|touched|] == touched;
      ok := true;
    }
  }

  predicate InBackup(q: Path, items: seq<Item>) {
    exists k :: 0 <= k < |items| && Under(q, items[k].backup)
  }

  lemma InBackupMore(q: Path, items: seq<Item>, n: nat)
    requires n < |items|
    ensures InBackup(q, items[..n + 1]) <==> InBackup(q, items[..n]) || Under(q, items[n].backup)
    ensures InBackup(q, items[..n + 1]) ==> InBackup(q, items)
  {
    assert items[..n + 1][n] == items[n];
    assert forall k :: 0 <= k < n ==> items[..n + 1][k] == items[..n][k];
    assert forall k :: 0 <= k < n + 1 ==> items[..n + 1][k] == items[k];
  }

  /** One package to install: its place, where it is staged, the name of its backup, and the tree made of its source. */
  datatype Package = Package(dest: Path, staged: Path, backup: Path, artifact: Tree)

  /** Below `p` stands exactly this tree. */
  ghost predicate Stands(fs: Tree, p: Path, artifact: Tree) {
    forall q {:trigger Under(q, p)} :: Under(q, p) ==>
      if q[|p|..] in artifact then q in fs && fs[q] == artifact[q[|p|..]] else q !in fs
  }

  lemma StandsAt(fs: Tree, p: Path, artifact: Tree)
    requires Stands(fs, p, artifact) && [] in artifact
    ensures p in fs
  {
    assert Under(p, p) && p[|p|..] == [];
  }

  /** The tree with the given nodes of the artifact written below `dst`. */
  function PartlyWritten(fs: Tree, artifact: Tree, done: set<Path>, dst: Path): (r: Tree)
    requires done <= artifact.Keys
    ensures forall q :: q in r <==> q in fs || (Under(q, dst) && q[|dst|..] in done)
    ensures forall q :: q in r ==>
              r[q] == if Under(q, dst) && q[|dst|..] in done then artifact[q[|dst|..]] else fs[q]
  {
    var added := set q | q in done :: dst + q;
    assert forall q :: q in added <==> Under(q, dst) && q[|dst|..] in done by {
      forall q | Under(q, dst) && q[|dst|..] in done
        ensures q in added
      {
        assert dst + q[|dst|..] == q;
      }
      forall q | q in added
        ensures Under(q, dst) && q[|dst|..] in done
      {
        var o :| o in done && q == dst + o;
        assert q[|dst|..] == o;
      }
    }
    fs + map q | q in added :: artifact[q[|dst|..]]
  }

  lemma WriteOneMore(fs: Tree, artifact: Tree, done: set<Path>, node: Path, dst: Path)
    requires done <= artifact.Keys && node in artifact
    ensures PartlyWritten(fs, artifact, done, dst)[dst + node := artifact[node]]
         == PartlyWritten(fs, artifact, done + {node}, dst)
  {
    assert (dst + node)[|dst|..] == node;
    forall q | Under(q, dst) && q[|dst|..] == node
      ensures q == dst + node
    {
      assert dst + q[|dst|..] == q;
    }
  }

  /** Writing parents before children never leaves an orphan node. */
  lemma PartlyWrittenWellFormed(fs: Tree, artifact: Tree, done: set<Path>, dst: Path)
    requires WellFormed(fs) && WellFormed(artifact) && HasParent(fs, dst) && dst != [] && done <= artifact.Keys
    requires forall q :: q in fs ==> !Under(q, dst)
    requires forall q :: q in done ==> q != [] ==> Parent(q) in done
    ensures WellFormed(PartlyWritten(fs, artifact, done, dst))
  {
    var r := PartlyWritten(fs, artifact, done, dst);
    forall q | q in r
      ensures HasParent(r, q)
    {
      if q in fs {
        assert HasParent(fs, q);
      } else if q != dst {
        var m := q[|dst|..];
        assert HasParent(artifact, m);
        assert Under(Parent(q), dst) && Parent(q)[|dst|..] == Parent(m);
      }
    }
  }

  /** Staging changes nothing a package's readiness looks at. */
  lemma StagingKeepsReady(before: Tree, after: Tree, touched: seq<Item>, scratch: iset<Path>, p: Package)
    requires Ready(before, touched, scratch, p)
    requires forall q :: !Under(q, p.staged) ==> Same(after, before, q)
    ensures Ready(after, touched, scratch, p)
  {
    UnrelatedBelow(p.backup, p.staged);
    var parent := Parent(p.dest);
    if Under(parent, p.staged) {
      UnderTransitive(p.dest, parent, p.staged);
    }
    assert Same(after, before, parent) && Same(after, before, Parent(p.staged));
  }

  /** What stood where it was staged now stands at its place. */
  lemma StandsMoved(start: Tree, before: Tree, after: Tree, p: Package)
    requires Stands(start, p.staged, p.artifact) && forall q :: Under(q, p.staged) ==> Same(before, start, q)
    requires Installed(before, after, p.staged, p.dest)
    ensures Stands(after, p.dest, p.artifact)
  {
    forall q | Under(q, p.dest)
      ensures if q[|p.dest|..] in p.artifact then q in after && after[q] == p.artifact[q[|p.dest|..]] else q !in after
    {
      var m := Moved(q, p.dest, p.staged);
      MovedBack(q, p.dest, p.staged);
      assert m[|p.staged|..] == q[|p.dest|..] && Same(before, start, m);
    }
  }

  predicate Unrelated(a: Path, b: Path) {
    !Under(a, b) && !Under(b, a)
  }

  lemma UnrelatedBelow(a: Path, b: Path)
    requires Unrelated(a, b)
    ensures forall q :: Under(q, a) ==> !Under(q, b)
  {
    forall q | Under(q, a)
      ensures !Under(q, b)
    {
      if Under(q, b) {
        AboveTheSame(a, b, q);
      }
    }
  }

  lemma CoveredBelow(p: Path, items: seq<Item>)
    requires Covered(p, items)
    ensures forall q :: Under(q, p) ==> Covered(q, items)
  {
    forall q | Under(q, p)
      ensures Covered(q, items)
    {
      if !Covered(q, items) {
        NotCoveredAbove(q, p, items);
      }
    }
  }

  /** Two packages share no place, staging tree or backup name. */
  predicate Apart(a: Package, b: Package) {
    && Unrelated(a.dest, b.dest) && Unrelated(a.dest, b.staged) && Unrelated(a.dest, b.backup)
    && Unrelated(a.staged, b.dest) && Unrelated(a.staged, b.staged) && Unrelated(a.staged, b.backup)
    && Unrelated(a.backup, b.dest) && Unrelated(a.backup, b.staged) && Unrelated(a.backup, b.backup)
  }

  /** The journal names the destinations of the first packages, in order. */
  ghost predicate Destinations(items: seq<Item>, packages: seq<Package>, n: nat) {
    |items| == n <= |packages|
    && forall i :: 0 <= i < n ==>
         items[i].path == packages[i].dest && items[i].backup == packages[i].backup && items[i].kind == ManagedPackage
  }

  /** Packages apart from each other leave no record nested in another, so nothing is reported. */
  lemma NothingToReport(fs: Tree, origin: Tree, items: seq<Item>, bases: seq<Tree>, scratch: iset<Path>,
                        packages: seq<Package>)
    requires WellFormed(fs) && Restorable(fs, origin, items, bases, scratch)
    requires forall i, j :: 0 <= i < j < |packages| ==> Apart(packages[i], packages[j])
    requires Destinations(items, packages, |items|)
    ensures Replay(fs, items).1 == []
  {
    hide Replay, Restorable;
    forall j | 0 <= j < |items|
      ensures !Covered(items[j].path, items[..j])
    {
      assert forall k :: 0 <= k < j ==> Apart(packages[k], packages[j]);
    }
    ReplayReports(fs, origin, items, bases, scratch);
  }

  lemma ApartElsewhere(a: Package, b: Package, q: Path)
    requires Apart(a, b)
    ensures Elsewhere(q, a) || Elsewhere(q, b)
  {
    if !Elsewhere(q, a) && !Elsewhere(q, b) {
      var x := if Under(q, a.dest) then a.dest else if Under(q, a.staged) then a.staged else a.backup;
      var y := if Under(q, b.dest) then b.dest else if Under(q, b.staged) then b.staged else b.backup;
      AboveTheSame(x, y, q);
    }
  }

  lemma AgreeEverywhere(a: Tree, b: Tree, scratch: iset<Path>)
    requires Agree(a, b, [], scratch)
    ensures forall q :: q !in scratch ==> Same(a, b, q)
  {
  }

  /** Installing one package leaves the others ready, or installed. */
  lemma InstallLeavesOthers(before: Tree, after: Tree, items: seq<Item>, touched: seq<Item>,
                            scratch: iset<Path>, packages: seq<Package>, n: nat)
    requires n < |packages| && forall i, j :: 0 <= i < j < |packages| ==> Apart(packages[i], packages[j])
    requires forall q :: Elsewhere(q, packages[n]) ==> Same(after, before, q)
    requires touched == items + [Item(ManagedPackage, packages[n].dest, packages[n].backup, packages[n].dest in before)]
    requires Stands(after, packages[n].dest, packages[n].artifact)
    requires forall i :: n <= i < |packages| ==> Ready(before, items, scratch, packages[i])
    requires forall i :: 0 <= i < n ==> Stands(before, packages[i].dest, packages[i].artifact)
    requires WellFormed(before) && WellFormed(after)
    ensures forall i :: n < i < |packages| ==> Ready(after, touched, scratch, packages[i])
    ensures forall i :: 0 <= i < n + 1 ==> Stands(after, packages[i].dest, packages[i].artifact)
  {
    forall i | n < i < |packages|
      ensures Ready(after, touched, scratch, packages[i])
    {
      assert Apart(packages[n], packages[i]);
      StillReady(before, after, items, touched, scratch, packages[n], packages[i]);
    }
    forall i | 0 <= i < n
      ensures Stands(after, packages[i].dest, packages[i].artifact)
    {
      assert Apart(packages[i], packages[n]);
      forall q | Under(q, packages[i].dest)
        ensures Same(after, before, q)
      {
        ApartElsewhere(packages[i], packages[n], q);
      }
    }
  }

  lemma StillReady(before: Tree, after: Tree, items: seq<Item>, touched: seq<Item>, scratch: iset<Path>,
                   done: Package, next: Package)
    requires Apart(done, next) && Ready(before, items, scratch, next) && WellFormed(after)
    requires forall q :: Elsewhere(q, done) ==> Same(after, before, q)
    requires touched == items + [Item(ManagedPackage, done.dest, done.backup, done.dest in before)]
    ensures Ready(after, touched, scratch, next)
  {
    forall q | Under(q, next.backup) || Under(q, next.staged)
      ensures Same(after, before, q)
    {
      ApartElsewhere(done, next, q);
    }
    ParentElsewhere(done, next.dest);
    ParentElsewhere(done, next.staged);
    assert Same(after, before, Parent(next.dest)) && Same(after, before, Parent(next.staged));
  }

  /** No package holds the directory of a path it does not hold. */
  lemma ParentElsewhere(done: Package, p: Path)
    requires p != [] && Unrelated(done.dest, p) && Unrelated(done.staged, p) && Unrelated(done.backup, p)
    ensures Elsewhere(Parent(p), done)
  {
    var parent := Parent(p);
    if !Elsewhere(parent, done) {
      var x := if Under(parent, done.dest) then done.dest
               else if Under(parent, done.staged) then done.staged
               else done.backup;
      UnderTransitive(p, parent, x);
      assert false;
    }
  }

  /** Nothing is in the way of staging and installing the package. */
  ghost predicate Ready(fs: Tree, touched: seq<Item>, scratch: iset<Path>, p: Package) {
    && Siblings(p.dest, p.backup) && FreshName(fs, touched, scratch, p.backup)
    && (forall q :: Under(q, p.staged) ==> q in scratch)
    && HasParent(fs, p.dest) && p.staged != [] && HasParent(fs, p.staged)
    && Unrelated(p.staged, p.dest) && Unrelated(p.staged, p.backup)
    && WellFormed(p.artifact) && [] in p.artifact
  }

  predicate Elsewhere(q: Path, p: Package) {
    !Under(q, p.dest) && !Under(q, p.staged) && !Under(q, p.backup)
  }

  /** Whatever no package concerns is as it was. */
  ghost predicate LeavesRest(before: Tree, after: Tree, packages: seq<Package>) {
    forall q :: (forall i :: 0 <= i < |packages| ==> Elsewhere(q, packages[i])) ==> Same(after, before, q)
  }

  lemma NothingTouched(fs: Tree, packages: seq<Package>)
    ensures LeavesRest(fs, fs, packages)
  {
  }

  lemma RestLeft(start: Tree, before: Tree, after: Tree, packages: seq<Package>, n: nat)
    requires LeavesRest(start, before, packages) && n < |packages|
    requires forall q :: Elsewhere(q, packages[n]) ==> Same(after, before, q)
    ensures LeavesRest(start, after, packages)
  {
    hide Elsewhere;
    forall q | forall i :: 0 <= i < |packages| ==> Elsewhere(q, packages[i])
      ensures Same(after, start, q)
    {
      assert Same(before, start, q) && Elsewhere(q, packages[n]);
    }
  }

  /** The staged tree is now at `dest`, and nothing is left where it was staged. */
  ghost predicate Installed(before: Tree, after: Tree, staged: Path, dest: Path) {
    forall q :: Under(q, dest) ==>
      var m := Moved(q, dest, staged);
      if m in before then q in after && after[q] == before[m] else q !in after
  }

  lemma DestinationParent(start: Tree, fs: Tree, p: Package)
    requires HasParent(start, p.dest) && Siblings(p.dest, p.backup)
    requires forall q :: !Under(q, p.dest) && !Under(q, p.backup) ==> Same(fs, start, q)
    ensures HasParent(fs, p.dest)
  {
    var parent := Parent(p.dest);
    assert |parent| < |p.dest| && |Parent(p.backup)| < |p.backup|;
    assert Same(fs, start, parent);
  }

  lemma NoChildLeft(fs: Tree, gone: set<Path>, todo: set<Path>, p: Path, node: Path)
    requires todo + gone == set q | q in fs && Under(q, p)
    requires node in todo && forall c :: c in todo ==> c == [] || Parent(c) != node
    ensures forall c :: c in fs && c != [] && Parent(c) == node ==> c in gone
  {
    forall c | c in fs && c != [] && Parent(c) == node
      ensures c in gone
    {
      assert c[..|p|] == Parent(c)[..|p|];
      assert c in todo + gone;
    }
  }

  /** A directory recorded before its child: when the directory goes, the child's backup
      goes with it. The child is reported, and still the whole tree comes back. */
  lemma ReportedYetRestored(origin: Tree, dir: Item, child: Item)
    requires dir.existed && Recorded(origin, dir, [], iset{})
    requires child.existed && Recorded(Backed(origin, dir), child, [dir], iset{})
    requires Under(child.path, dir.path) && child.path != dir.path
    ensures var failed := Without(Backed(Backed(origin, dir), child), dir.path);
            && Replay(failed, [dir, child]).1 == [MissingBackup(child.path)]
            && Agree(Replay(failed, [dir, child]).0, origin, [], iset{})
  {
    var recorded := Backed(Backed(origin, dir), child);
    var failed := Without(recorded, dir.path);
    var items, bases := [dir, child], [origin, Backed(origin, dir)];
    assert HasParent(Backed(origin, dir), child.path);
    CopiedWellFormed(Backed(origin, dir), child.path, child.backup);
    WithoutWellFormed(recorded, dir.path);
    SiblingUnder(child.backup, child.path, dir.path);
    FailedIsRestorable(origin, dir, child, failed);
    ReplayRestores(failed, origin, items, bases, iset{});
    assert items[..1] == [dir] && [dir][..0] == [];
    assert ReplayItem(failed, child) == (failed, [MissingBackup(child.path)]);
    assert [] + [dir] == [dir];
    FaultIsMissingBackup(failed, origin, dir, [], iset{});
    assert Replay(failed, [dir]).1 == [];
  }

  lemma FailedIsRestorable(origin: Tree, dir: Item, child: Item, failed: Tree)
    requires Recorded(origin, dir, [], iset{}) && Recorded(Backed(origin, dir), child, [dir], iset{})
    requires failed == Without(Backed(Backed(origin, dir), child), dir.path)
    requires Under(child.path, dir.path) && Under(child.backup, dir.path)
    ensures Restorable(failed, origin, [dir, child], [origin, Backed(origin, dir)], iset{})
    ensures Agree(failed, Backed(origin, dir), [dir], iset{})
  {
    var items := [dir, child];
    forall q | Under(q, dir.path)
      ensures Covered(q, items) && Covered(q, [dir])
    {
      assert items[0] == dir && [dir][0] == dir;
    }
    forall q | !Under(q, dir.path)
      ensures Same(failed, Backed(Backed(origin, dir), child), q) && Same(failed, Backed(origin, dir), q)
    {
      if Under(q, child.backup) {
        UnderTransitive(q, child.backup, dir.path);
      }
    }
    assert items[..1] == [dir] && [origin, Backed(origin, dir)][..1] == [origin];
    assert [dir][..0] == [] && [origin][..0] == [];
    assert Restorable(Backed(origin, dir), origin, [dir], [origin], iset{});
  }
}
