/** The two content digests of one package tree (ls/core/package_digests.py). */
module PackageDigests {
  import opened Wrappers
  import opened Framing
  import opened Ordering

  type Path = seq<string>

  datatype Node = File(content: Bytes) | Link | Directory | Special

  /** Everything below a package directory, by path relative to it. */
  type Tree = map<Path, Node>

  /** The path and content of one file, as fed to a hash. */
  datatype Item = Item(path: Bytes, content: Bytes)

  function Domain(): Bytes { Utf8("localsetup.package-digest") + [0] + Utf8("sha256-framed-files-v1") + [0] }

  const MARKERS := [".localsetup-managed.json", ".localsetup-managed"]

  // ----- paths -----

  /** What a directory entry can be called. */
  predicate Name(s: string) { s != "" && '/' !in s && '\0' !in s }

  predicate Relative(path: Path) { path != [] && forall part :: part in path ==> Name(part) }

  /** `PurePath.as_posix`. */
  function Posix(path: Path): string {
    if |path| < 2 then (if path == [] then "" else path[0]) else path[0] + "/" + Posix(path[1..])
  }

  /** Names end where a slash or the text does. */
  lemma NameCancels(a: string, b: string, r: string, s: string)
    requires '/' !in a && '/' !in b && (r == "" || r[0] == '/') && (s == "" || s[0] == '/')
    requires a + r == b + s
    ensures a == b && r == s
  {
    var text := a + r;
    assert forall i :: 0 <= i < |a| ==> text[i] == a[i];
    assert forall i :: 0 <= i < |b| ==> text[i] == b[i];
    assert |a| < |text| ==> text[|a|] == '/';
    assert |b| < |text| ==> text[|b|] == '/';
    assert |a| == |b|;
    assert a == (a + r)[..|a|] && b == (b + s)[..|b|];
    assert r == (a + r)[|a|..] && s == (b + s)[|b|..];
  }

  lemma {:induction false} PosixInjective(p: Path, q: Path)
    requires Relative(p) && Relative(q) && Posix(p) == Posix(q)
    ensures p == q
  {
    hide Posix;
    PosixSplits(p);
    PosixSplits(q);
    assert p[0] in p && q[0] in q;
    NameCancels(p[0], q[0], Below(p), Below(q));
    if |p| >= 2 {
      assert Posix(p[1..]) == Below(p)[1..] == Below(q)[1..] == Posix(q[1..]);
      PosixInjective(p[1..], q[1..]);
    }
    assert p == [p[0]] + p[1..] && q == [q[0]] + q[1..];
  }

  /** The text after the first name. */
  function Below(path: Path): string { if |path| < 2 then "" else "/" + Posix(path[1..]) }

  lemma PosixSplits(path: Path)
    requires path != []
    ensures Posix(path) == path[0] + Below(path)
  {
    if |path| < 2 {
      assert path[0] + "" == path[0];
    }
  }

  /** Where the last dot stands, or -1. */
  function LastDot(name: string): (i: int)
    ensures -1 <= i < |name|
  {
    if name == "" then -1
    else if name[|name| - 1] == '.' then |name| - 1
    else LastDot(name[..|name| - 1])
  }

  /** `PurePath.suffix`: a leading or a trailing dot starts none. */
  function Suffix(name: string): string {
    if 0 < LastDot(name) < |name| - 1 then name[LastDot(name)..] else ""
  }

  predicate Excluded(path: Path) {
    || (|path| == 1 && path[0] in MARKERS)
    || "__pycache__" in path
    || (path != [] && Suffix(path[|path| - 1]) in [".pyc", ".pyo"])
  }

  /** A compiled Python file's name: something before the ending. */
  ghost predicate Compiled(name: string) {
    |name| >= 5 && (name[|name| - 4..] == ".pyc" || name[|name| - 4..] == ".pyo")
  }

  lemma {:induction false} DotFrom(name: string, i: nat)
    requires i < |name| && name[i] == '.' && '.' !in name[i + 1..]
    ensures LastDot(name) == i
    decreases |name|
  {
    if i < |name| - 1 {
      assert name[|name| - 1] == name[i + 1..][|name| - i - 2];
      assert name[..|name| - 1][i + 1..] == name[i + 1..][..|name| - i - 2];
      DotFrom(name[..|name| - 1], i);
    }
  }

  /** What a digest leaves out: a marker at the top, anything in a cache directory, and compiled Python files. */
  lemma ExcludedMeans(path: Path)
    ensures Excluded(path) <==>
              || path == [".localsetup-managed.json"] || path == [".localsetup-managed"]
              || (exists k :: 0 <= k < |path| && path[k] == "__pycache__")
              || (path != [] && Compiled(path[|path| - 1]))
  {
    if path != [] {
      CompiledMeans(path[|path| - 1]);
    }
    hide Suffix;
    assert |path| == 1 ==> path == [path[0]];
  }

  lemma CompiledMeans(name: string)
    ensures Suffix(name) in [".pyc", ".pyo"] <==> Compiled(name)
  {
    var n := |name| - 4;
    if Compiled(name) {
      assert name[n] == name[n..][0] && name[n + 1..] == name[n..][1..];
      assert '.' !in name[n + 1..] by {
        assert name[n + 1..] == "pyc" || name[n + 1..] == "pyo";
      }
      DotFrom(name, n);
    }
    if Suffix(name) in [".pyc", ".pyo"] {
      assert |Suffix(name)| == 4 && LastDot(name) == n;
    }
  }

  /** The framed stream opens with this text and a zero byte after each of its two parts. */
  lemma DomainMeans()
    ensures var text := "localsetup.package-digest" + "\0" + "sha256-framed-files-v1" + "\0";
            |Domain()| == |text| && forall i :: 0 <= i < |text| ==> Domain()[i] == text[i] as int
  {
    hide Utf8;
    AsciiIsItself("localsetup.package-digest");
    AsciiIsItself("sha256-framed-files-v1");
  }

  /** The content a digest covers: regular files, generated and marker files apart. */
  function Files(tree: Tree): map<Path, Bytes> {
    map p | p in tree && tree[p].File? && !Excluded(p) :: tree[p].content
  }

  // ----- streams -----

  function Concat(f: Item -> Bytes, items: seq<Item>): Bytes {
    if items == [] then [] else f(items[0]) + Concat(f, items[1..])
  }

  function FramedItem(item: Item): Bytes { Frame(item.path) + Frame(item.content) }

  function LegacyItem(item: Item): Bytes { item.path + [0] + item.content }

  lemma {:induction false} ConcatAppends(f: Item -> Bytes, items: seq<Item>, more: seq<Item>)
    ensures Concat(f, items + more) == Concat(f, items) + Concat(f, more)
  {
    if items == [] {
      assert items + more == more;
    } else {
      ConcatAppends(f, items[1..], more);
      assert (items + more)[1..] == items[1..] + more;
    }
  }

  function Items(files: map<Path, Bytes>, order: seq<Path>): (items: seq<Item>)
    requires forall p :: p in order ==> p in files
    ensures |items| == |order|
    ensures forall i :: 0 <= i < |order| ==> items[i] == Item(Utf8(Posix(order[i])), files[order[i]])
  {
    seq(|order|, i requires 0 <= i < |order| => Item(Utf8(Posix(order[i])), files[order[i]]))
  }

  /** The files in path order. */
  ghost function Sequence(files: map<Path, Bytes>): seq<Path> {
    PathBeforeTotal();
    Listed(PathBefore, files.Keys)
  }

  /** The unambiguous stream: domain, file count, and both fields of each file framed. */
  function Encoded(items: seq<Item>): Bytes {
    hide Domain;
    Domain() + BigEndian(|items|, 8) + Concat(FramedItem, items)
  }

  ghost function FramedStream(files: map<Path, Bytes>): Bytes { Encoded(Items(files, Sequence(files))) }

  /** The historical stream: path, one zero byte, content. */
  ghost function LegacyStream(files: map<Path, Bytes>): Bytes { Concat(LegacyItem, Items(files, Sequence(files))) }

  // ----- the parser that inverts the framed stream -----

  function ParseItems(s: Bytes, count: nat): Option<seq<Item>>
    decreases count
  {
    if count == 0 then (if s == [] then Some([]) else None)
    else match Unframe(s)
      case None => None
      case Some((path, rest)) =>
        match Unframe(rest)
        case None => None
        case Some((content, more)) =>
          match ParseItems(more, count - 1)
          case None => None
          case Some(items) => Some([Item(path, content)] + items)
  }

  function Parse(s: Bytes): Option<seq<Item>> {
    var n := |Domain()|;
    if |s| < n + 8 || s[..n] != Domain() then None
    else ParseItems(s[n + 8..], Value(s[n..n + 8]))
  }

  predicate Sized(items: seq<Item>) {
    |items| < LIMIT && forall i :: 0 <= i < |items| ==> |items[i].path| < LIMIT && |items[i].content| < LIMIT
  }

  lemma {:induction false} ParseItemsInverts(items: seq<Item>)
    requires Sized(items)
    ensures ParseItems(Concat(FramedItem, items), |items|) == Some(items)
  {
    hide Frame, Unframe;
    if items != [] {
      var item, rest := items[0], Concat(FramedItem, items[1..]);
      UnframeInverts(item.path, Frame(item.content) + rest);
      UnframeInverts(item.content, rest);
      assert Concat(FramedItem, items) == Frame(item.path) + (Frame(item.content) + rest);
      ParseItemsInverts(items[1..]);
      assert items == [item] + items[1..];
    }
  }

  /** Reading back what was written gives the very same files, in order. */
  lemma ParseInverts(items: seq<Item>)
    requires Sized(items)
    ensures Parse(Encoded(items)) == Some(items)
  {
    hide BigEndian, Value, Domain, FramedItem;
    var s, n := Encoded(items), |Domain()|;
    Pow8();
    ValueInverts(|items|, 8);
    ParseItemsInverts(items);
    assert s[..n] == Domain() && s[n..n + 8] == BigEndian(|items|, 8);
    assert s[n + 8..] == Concat(FramedItem, items);
  }

  lemma {:induction false} ParseItemsExact(s: Bytes, count: nat)
    requires ParseItems(s, count).Some?
    ensures |ParseItems(s, count).value| == count && Concat(FramedItem, ParseItems(s, count).value) == s
    decreases count
  {
    hide Frame, Unframe;
    if count > 0 {
      FrameInverts(s);
      var (path, rest) := Unframe(s).value;
      FrameInverts(rest);
      var (content, more) := Unframe(rest).value;
      ParseItemsExact(more, count - 1);
      var items := ParseItems(more, count - 1).value;
      assert ([Item(path, content)] + items)[1..] == items;
    }
  }

  /** Every stream the parser accepts is the one the writer emits for what it read. */
  lemma ParseExact(s: Bytes)
    requires Parse(s).Some?
    ensures Encoded(Parse(s).value) == s
  {
    hide BigEndian, Value, Domain, FramedItem, ParseItems, Concat;
    var n := |Domain()|;
    ParseItemsExact(s[n + 8..], Value(s[n..n + 8]));
    BigEndianInverts(s[n..n + 8]);
    assert s == s[..n] + s[n..n + 8] + s[n + 8..];
  }

  // ----- what the streams determine -----

  /** Paths a file system can hold, and lengths `to_bytes(8)` can write. */
  ghost predicate Storable(files: map<Path, Bytes>) {
    && |files| < LIMIT
    && forall p :: p in files ==> Relative(p) && |Utf8(Posix(p))| < LIMIT && |files[p]| < LIMIT
  }

  lemma {:induction false} DistinctCount<T>(order: seq<T>, elements: set<T>)
    requires forall x :: x in order <==> x in elements
    requires forall i, j :: 0 <= i < j < |order| ==> order[i] != order[j]
    ensures |order| == |elements|
  {
    if order != [] {
      var last := order[|order| - 1];
      forall x
        ensures x in order[..|order| - 1] <==> x in elements - {last}
      {
        if x in elements - {last} {
          var i :| 0 <= i < |order| && order[i] == x;
          assert order[..|order| - 1][i] == x;
        }
      }
      DistinctCount(order[..|order| - 1], elements - {last});
    }
  }

  lemma SequenceSized(files: map<Path, Bytes>)
    requires Storable(files)
    ensures |Sequence(files)| == |files| && Sized(Items(files, Sequence(files)))
  {
    hide PathBefore, Relative, Posix, Utf8;
    SequenceShape(files);
  }

  lemma ItemsDetermine(files: map<Path, Bytes>, p: seq<Path>, other: map<Path, Bytes>, q: seq<Path>)
    requires Storable(files) && Storable(other)
    requires (forall k :: k in p <==> k in files) && (forall k :: k in q <==> k in other)
    requires Items(files, p) == Items(other, q)
    ensures files == other
  {
    hide Posix, Utf8, Relative;
    assert |p| == |q|;
    forall i | 0 <= i < |p|
      ensures p[i] == q[i] && files[p[i]] == other[p[i]]
    {
      assert p[i] in p && q[i] in q;
      assert Items(files, p)[i] == Items(other, q)[i];
      Utf8Injective(Posix(p[i]), Posix(q[i]));
      PosixInjective(p[i], q[i]);
    }
    assert p == q;
    assert files.Keys == other.Keys;
    forall k | k in files
      ensures files[k] == other[k]
    {
      assert k in p;
    }
  }

  /** Equal framed streams mean equal file lists, and conversely. */
  lemma FramedDetermines(files: map<Path, Bytes>, other: map<Path, Bytes>)
    requires Storable(files) && Storable(other)
    ensures FramedStream(files) == FramedStream(other) <==> files == other
  {
    hide PathBefore, Total, Sorted, Encoded, Parse, Sized, Storable, Items;
    if FramedStream(files) == FramedStream(other) {
      var p, q := Sequence(files), Sequence(other);
      SequenceSized(files);
      SequenceSized(other);
      ParseInverts(Items(files, p));
      ParseInverts(Items(other, q));
      ItemsDetermine(files, p, other, q);
    }
  }

  /** So, for a hash that tells the two streams apart, equal digests mean equal content. */
  lemma FramedDigestDetermines(hash: Bytes -> Bytes, files: map<Path, Bytes>, other: map<Path, Bytes>)
    requires Storable(files) && Storable(other)
    requires CollisionFree(hash, {FramedStream(files), FramedStream(other)})
    ensures hash(FramedStream(files)) == hash(FramedStream(other)) <==> files == other
  {
    hide FramedStream, Storable;
    FramedDetermines(files, other);
  }

  /**
   * The legacy stream forgets boundaries: every package of two or more files
   * shares it with a package holding one file fewer.
   */
  lemma LegacyForgets(files: map<Path, Bytes>) returns (other: map<Path, Bytes>)
    requires |files| >= 2
    ensures other.Keys < files.Keys && LegacyStream(other) == LegacyStream(files)
  {
    hide PathBefore, Total, Posix, Utf8, Concat, LegacyItem, Sequence;
    var order := Sequence(files);
    SequenceShape(files);
    var n := |order|;
    var p, q := order[n - 2], order[n - 1];
    var tail := Utf8(Posix(q)) + [0] + files[q];
    other := (files - {q})[p := files[p] + tail];
    FrontIsSequence(files, other, q);
    MergeKeepsLegacy(files, other, order);
    assert q in files.Keys && q !in other.Keys;
  }

  /** Without its last file, a package's sequence is the front of the old one. */
  lemma FrontIsSequence(files: map<Path, Bytes>, other: map<Path, Bytes>, last: Path)
    requires |files| > 0 && |Sequence(files)| == |files| && last == Sequence(files)[|files| - 1]
    requires other.Keys == files.Keys - {last}
    ensures Sequence(other) == Sequence(files)[..|files| - 1]
  {
    hide PathBefore, Total;
    PathBeforeTotal();
    SequenceShape(files);
    var order := Sequence(files);
    var front := order[..|files| - 1];
    forall x
      ensures x in front <==> x in other
    {
      if x in front {
        var i :| 0 <= i < |front| && front[i] == x;
        assert order[i] == x && order[i] != last && order[i] in files;
      }
      if x in other {
        var i :| 0 <= i < |order| && order[i] == x;
        assert front[i] == x;
      }
    }
    SortedUnique(PathBefore, front, Sequence(other));
  }

  lemma SequenceShape(files: map<Path, Bytes>)
    ensures var order := Sequence(files);
            && |order| == |files| && Sorted(PathBefore, order)
            && (forall i :: 0 <= i < |order| ==> order[i] in files)
            && (forall i, j :: 0 <= i < j < |order| ==> order[i] != order[j])
  {
    hide PathBefore;
    PathBeforeTotal();
    var order := Sequence(files);
    forall i, j | 0 <= i < j < |order|
      ensures order[i] != order[j]
    {
      assert PathBefore(order[i], order[j]);
    }
    DistinctCount(order, files.Keys);
    assert |files.Keys| == |files|;
    forall i | 0 <= i < |order|
      ensures order[i] in files
    {
      assert order[i] in order;
    }
  }

  lemma MergeKeepsLegacy(files: map<Path, Bytes>, other: map<Path, Bytes>, order: seq<Path>)
    requires |order| >= 2 && forall i :: 0 <= i < |order| ==> order[i] in files
    requires forall i :: 0 <= i < |order| - 1 ==> order[i] in other
    requires forall i :: 0 <= i < |order| - 2 ==> other[order[i]] == files[order[i]]
    requires var p, q := order[|order| - 2], order[|order| - 1];
             other[p] == files[p] + (Utf8(Posix(q)) + [0] + files[q])
    ensures Concat(LegacyItem, Items(other, order[..|order| - 1])) == Concat(LegacyItem, Items(files, order))
  {
    hide Posix, Utf8;
    var n := |order|;
    var before := Items(files, order[..n - 2]);
    var a, b, c := Items(files, order)[n - 2], Items(files, order)[n - 1], Items(other, order[..n - 1])[n - 2];
    assert Items(files, order) == before + [a, b];
    assert Items(other, order[..n - 1]) == before + [c];
    ConcatAppends(LegacyItem, before, [a, b]);
    ConcatAppends(LegacyItem, before, [c]);
    assert Concat(LegacyItem, [c]) == LegacyItem(c);
    assert [a, b][1..] == [b] && Concat(LegacyItem, [b]) == LegacyItem(b);
    assert LegacyItem(c) == LegacyItem(a) + LegacyItem(b);
  }

  // ----- when the legacy stream does determine a package -----

  /** A path a digest can cover: real names, none of them excluded. */
  predicate Legal(path: Path) { Relative(path) && "." !in path && ".." !in path && !Excluded(path) }

  /** The path lies below the file `p`, so no directory holds both. */
  predicate BelowFile(p: Path, path: Path) { |p| < |path| && path[..|p|] == p }

  /** The files some directory can hold: legal paths, and nothing below a file. */
  ghost predicate Package(files: map<Path, Bytes>) {
    (forall p :: p in files ==> Legal(p)) && forall p, q :: p in files && q in files ==> !BelowFile(p, q)
  }

  /** No other package has this legacy stream. */
  ghost predicate Determined(files: map<Path, Bytes>) {
    forall other: map<Path, Bytes> {:trigger LegacyStream(other)} ::
      Package(other) && LegacyStream(other) == LegacyStream(files) ==> other == files
  }

  /** Content that reads like shorter content followed by the path and content of a later file beside this one. */
  ghost predicate ReadsOn(p: Path, content: Bytes) {
    exists c: Bytes, q: Path, d: Bytes :: Continues(p, content, c, q, d)
  }

  ghost predicate Continues(p: Path, content: Bytes, c: Bytes, q: Path, d: Bytes) {
    && Legal(q) && PathBefore(p, q) && !BelowFile(p, q)
    && content == c + LegacyItem(Item(Utf8(Posix(q)), d))
  }

  lemma {:induction false} NoZeroByte(s: string)
    requires '\0' !in s
    ensures 0 !in Utf8(s)
  {
    if s != "" {
      assert s[0] != '\0';
      NoZeroByte(s[1..]);
      ZeroFree(s[0] as int);
    }
  }

  lemma ZeroFree(n: nat)
    requires 0 < n < 0x11_0000
    ensures 0 !in EncodeCode(n)
  {
  }

  lemma {:induction false} PosixNoNul(path: Path)
    requires forall part :: part in path ==> Name(part)
    ensures '\0' !in Posix(path)
  {
    if |path| >= 2 {
      assert path[0] in path;
      PosixNoNul(path[1..]);
    } else if path != [] {
      assert path[0] in path;
    }
  }

  /** The first zero byte ends the path. */
  lemma ItemCancels(p: Path, q: Path, c: Bytes, d: Bytes, r: Bytes, s: Bytes)
    requires Relative(p) && Relative(q)
    requires LegacyItem(Item(Utf8(Posix(p)), c)) + r == LegacyItem(Item(Utf8(Posix(q)), d)) + s
    ensures p == q && c + r == d + s
  {
    PosixNoNul(p);
    PosixNoNul(q);
    NoZeroByte(Posix(p));
    NoZeroByte(Posix(q));
    hide Posix, Utf8, Relative;
    var a, b := Utf8(Posix(p)), Utf8(Posix(q));
    assert a + [0] + c + r == a + [0] + (c + r) && b + [0] + d + s == b + [0] + (d + s);
    ZeroCancels(a, b, c + r, d + s);
    Utf8Injective(Posix(p), Posix(q));
    PosixInjective(p, q);
  }

  lemma ZeroCancels(a: Bytes, b: Bytes, r: Bytes, s: Bytes)
    requires 0 !in a && 0 !in b && a + [0] + r == b + [0] + s
    ensures a == b && r == s
  {
    var text := a + [0] + r;
    assert text[|a|] == 0 && text[|b|] == 0;
    assert forall i :: 0 <= i < |a| ==> text[i] == a[i] && a[i] in a;
    assert forall i :: 0 <= i < |b| ==> text[i] == b[i] && b[i] in b;
    assert |a| == |b|;
    assert a == text[..|a|] && b == text[..|b|];
    assert r == text[|a| + 1..] && s == text[|b| + 1..];
  }

  /** The legacy stream opens with its first file. */
  lemma LegacyOpens(files: map<Path, Bytes>)
    ensures files == map[] ==> LegacyStream(files) == []
    ensures files != map[] ==> LegacyStream(files) != []
    ensures files != map[] ==>
              var order := Sequence(files);
              && order != [] && order[0] in files
              && LegacyStream(files) == LegacyItem(Item(Utf8(Posix(order[0])), files[order[0]]))
                                        + Concat(LegacyItem, Items(files, order)[1..])
              && (|order| == 1 ==> Concat(LegacyItem, Items(files, order)[1..]) == [])
              && (|order| > 1 ==>
                    && order[1] in files && PathBefore(order[0], order[1])
                    && Concat(LegacyItem, Items(files, order)[1..])
                       == LegacyItem(Item(Utf8(Posix(order[1])), files[order[1]]))
                          + Concat(LegacyItem, Items(files, order)[2..]))
  {
    hide Posix, Utf8, PathBefore;
    SequenceShape(files);
    var order := Sequence(files);
    if |order| > 1 {
      assert Items(files, order)[1..][1..] == Items(files, order)[2..];
    }
    if files == map[] {
      assert |files| == 0;
    } else {
      var p :| p in files;
      assert p in order;
    }
  }

  /** A single file whose content does not read on is the only package with its stream. */
  lemma SingleIsDetermined(files: map<Path, Bytes>, other: map<Path, Bytes>)
    requires Package(files) && Package(other) && |files| <= 1 && forall p :: p in files ==> !ReadsOn(p, files[p])
    requires LegacyStream(other) == LegacyStream(files)
    ensures other == files
  {
    hide Posix, Utf8, PathBefore, Excluded, Concat, Items, LegacyItem, LegacyStream, ReadsOn;
    LegacyOpens(files);
    LegacyOpens(other);
    SequenceShape(files);
    SequenceShape(other);
    if files != map[] && other != map[] {
      var p, q := Sequence(files)[0], Sequence(other)[0];
      var rest := Concat(LegacyItem, Items(other, Sequence(other))[1..]);
      assert |Sequence(files)| == 1;
      ItemCancels(p, q, files[p], other[q], [], rest);
      assert files[p] == files[p] + [] && other[q] == other[q] + [];
      if |Sequence(other)| > 1 {
        SecondReadsOn(other, files[p]);
      }
      OnlyFile(files, p);
      OnlyFile(other, p);
    }
  }

  /** Content followed by the rest of a package's stream reads on. */
  lemma SecondReadsOn(other: map<Path, Bytes>, content: Bytes)
    requires Package(other) && |Sequence(other)| > 1 && Sequence(other)[0] in other
    requires content == other[Sequence(other)[0]] + Concat(LegacyItem, Items(other, Sequence(other))[1..])
    ensures ReadsOn(Sequence(other)[0], content)
  {
    hide Posix, Utf8, PathBefore, Excluded, Concat, Items, LegacyItem, LegacyStream;
    LegacyOpens(other);
    var p, q := Sequence(other)[0], Sequence(other)[1];
    var after := Concat(LegacyItem, Items(other, Sequence(other))[2..]);
    Trailing(Utf8(Posix(q)), other[q], after);
    assert !BelowFile(p, q);
    assert Continues(p, content, other[p], q, other[q] + after);
  }

  lemma Trailing(path: Bytes, content: Bytes, after: Bytes)
    ensures LegacyItem(Item(path, content)) + after == LegacyItem(Item(path, content + after))
  {
  }

  lemma OnlyFile(files: map<Path, Bytes>, p: Path)
    requires |Sequence(files)| == 1 && Sequence(files)[0] == p && p in files
    ensures files == map[p := files[p]]
  {
    hide PathBefore;
    assert forall q :: q in files ==> q in Sequence(files);
  }

  /** Content that reads on gives a second package with the same stream. */
  lemma ReadingOnForgets(p: Path, c: Bytes, q: Path, d: Bytes)
    requires Legal(p) && Legal(q) && PathBefore(p, q)
    ensures var content := c + LegacyItem(Item(Utf8(Posix(q)), d));
            LegacyStream(map[p := content]) == LegacyStream(map[p := c, q := d])
  {
    var content := c + LegacyItem(Item(Utf8(Posix(q)), d));
    var one, two := map[p := content], map[p := c, q := d];
    PathBeforeTotal();
    assert p != q;
    hide Posix, Utf8, PathBefore, Excluded, Total;
    SortedUnique(PathBefore, [p], Sequence(one));
    SortedUnique(PathBefore, [p, q], Sequence(two));
    assert Items(one, [p]) == [Item(Utf8(Posix(p)), content)];
    assert Items(two, [p, q]) == [Item(Utf8(Posix(p)), c), Item(Utf8(Posix(q)), d)];
    TwoItems(Item(Utf8(Posix(p)), c), Item(Utf8(Posix(q)), d));
  }

  lemma TwoItems(a: Item, b: Item)
    ensures Concat(LegacyItem, [a, b]) == Concat(LegacyItem, [Item(a.path, a.content + LegacyItem(b))])
  {
    assert [a, b][1..] == [b];
    assert Concat(LegacyItem, [b]) == LegacyItem(b);
    assert Concat(LegacyItem, [a, b]) == LegacyItem(a) + LegacyItem(b);
  }

  /**
   * The legacy stream tells a package from every other exactly when it holds
   * at most one file, whose content does not read on into a later file.
   */
  lemma LegacyDetermines(files: map<Path, Bytes>)
    requires Package(files)
    ensures Determined(files) <==> |files| <= 1 && forall p :: p in files ==> !ReadsOn(p, files[p])
  {
    hide LegacyStream, ReadsOn, Legal;
    if |files| <= 1 && forall p :: p in files ==> !ReadsOn(p, files[p]) {
      forall other: map<Path, Bytes> | Package(other) && LegacyStream(other) == LegacyStream(files)
        ensures other == files
      {
        SingleIsDetermined(files, other);
      }
    } else if |files| >= 2 {
      var other := LegacyForgets(files);
      assert Package(other) && other != files;
    } else {
      var p :| p in files && ReadsOn(p, files[p]);
      ReadsOnIsNotDetermined(files, p);
    }
  }

  lemma ReadsOnIsNotDetermined(files: map<Path, Bytes>, p: Path)
    requires Package(files) && |files| == 1 && p in files && ReadsOn(p, files[p])
    ensures !Determined(files)
  {
    PathBeforeTotal();
    hide Posix, Utf8, PathBefore, Excluded, LegacyStream;
    var c: Bytes, q: Path, d: Bytes :| Continues(p, files[p], c, q, d);
    ReadingOnForgets(p, c, q, d);
    Alone(files, p);
    if BelowFile(q, p) {
      BelowIsLater(q, p);
      assert false;
    }
    var other := map[p := c, q := d];
    assert Package(other) && q in other && q !in files;
  }

  /** What lies below a path comes after it. */
  lemma {:induction false} BelowIsLater(p: Path, path: Path)
    requires BelowFile(p, path)
    ensures PathBefore(p, path)
  {
    if p != [] {
      assert path[0] == path[..|p|][0] == p[0];
      assert path[1..][..|p| - 1] == path[..|p|][1..] == p[1..];
      BelowIsLater(p[1..], path[1..]);
    }
  }

  lemma Alone(files: map<Path, Bytes>, p: Path)
    requires |files| == 1 && p in files
    ensures files == map[p := files[p]]
  {
    assert |files.Keys| == 1;
    forall q | q in files
      ensures q == p
    {
      SubsetSize({p, q}, files.Keys);
      assert q != p ==> |{p, q}| == 2;
    }
  }

  // ----- the digests -----

  /** `rglob("*")`: every entry once, in no particular order. */
  ghost predicate Lists(listing: seq<Path>, tree: Tree) {
    && (forall p :: p in listing <==> p in tree)
    && (forall i, j :: 0 <= i < j < |listing| ==> listing[i] != listing[j])
  }

  /** The historical and the unambiguous digest; neither depends on the listing order. */
  method PackageDigests(hash: Bytes -> Bytes, package: Option<Tree>, listing: seq<Path>)
    returns (legacyDigest: Option<Bytes>, framedDigest: Option<Bytes>)
    requires package.Some? ==> Lists(listing, package.value)
    ensures package.None? || Files(package.value) == map[] ==> legacyDigest == framedDigest == None
    ensures package.Some? && Files(package.value) != map[] ==>
              && legacyDigest == Some(hash(LegacyStream(Files(package.value))))
              && framedDigest == Some(hash(FramedStream(Files(package.value))))
  {
    hide PathBefore, Posix, Utf8, Excluded, Suffix, Domain, BigEndian, Listed, Total, FramedItem, LegacyItem;
    if package.None? {
      return None, None;
    }
    var tree := package.value;
    var files: set<Path> := {};
    for i := 0 to |listing|
      invariant forall p :: p in files <==> p in listing[..i] && tree[p].File? && !Excluded(p)
    {
      assert listing[i] in listing;
      if tree[listing[i]].File? && !Excluded(listing[i]) {
        files := files + {listing[i]};
      }
    }
    ghost var covered := Files(tree);
    assert files == covered.Keys by {
      assert listing[..|listing|] == listing;
    }
    PathBeforeTotal();
    var order := SortedList(PathBefore, files);
    SortedUnique(PathBefore, order, Sequence(covered));
    if order == [] {
      assert covered.Keys == {};
      return None, None;
    }
    var legacy, framed := Streams(tree, covered, order);
    assert order[0] in files && covered != map[];
    return Some(hash(legacy)), Some(hash(framed));
  }

  /** The two hash states after the loop over the sorted files. */
  method Streams(tree: Tree, ghost covered: map<Path, Bytes>, order: seq<Path>) returns (legacy: Bytes, framed: Bytes)
    requires forall p :: p in order ==> p in covered && p in tree && tree[p].File? && covered[p] == tree[p].content
    ensures legacy == Concat(LegacyItem, Items(covered, order))
    ensures framed == Encoded(Items(covered, order))
  {
    hide Posix, Utf8, Domain, BigEndian, FramedItem, LegacyItem, Concat;
    legacy := [];
    framed := Domain();
    framed := framed + BigEndian(|order|, 8);
    NoItems();
    for i := 0 to |order|
      invariant legacy == Concat(LegacyItem, Items(covered, order)[..i])
      invariant framed == Domain() + BigEndian(|order|, 8) + Concat(FramedItem, Items(covered, order)[..i])
    {
      assert order[i] in order && order[i] in tree;
      ghost var legacy0, framed0 := legacy, framed;
      var relative := Utf8(Posix(order[i]));
      var content := tree[order[i]].content;
      legacy := legacy + relative;
      legacy := legacy + [0];
      legacy := legacy + content;
      framed := framed + BigEndian(|relative|, 8);
      framed := framed + relative;
      framed := framed + BigEndian(|content|, 8);
      framed := framed + content;
      NextItem(Items(covered, order), i);
      FieldsAppend(legacy0, framed0, Items(covered, order)[i]);
      assert framed == framed0 + FramedItem(Items(covered, order)[i]);
    }
    assert Items(covered, order)[..|order|] == Items(covered, order);
  }

  lemma NoItems()
    ensures Concat(LegacyItem, []) == Concat(FramedItem, []) == []
  {
  }

  /** Feeding the fields one by one feeds the item. */
  lemma FieldsAppend(legacy: Bytes, framed: Bytes, item: Item)
    ensures legacy + item.path + [0] + item.content == legacy + LegacyItem(item)
    ensures framed + BigEndian(|item.path|, 8) + item.path + BigEndian(|item.content|, 8) + item.content
         == framed + FramedItem(item)
  {
    hide BigEndian;
  }

  lemma NextItem(items: seq<Item>, i: nat)
    requires i < |items|
    ensures forall f: Item -> Bytes :: Concat(f, items[..i + 1]) == Concat(f, items[..i]) + f(items[i])
  {
    forall f: Item -> Bytes
      ensures Concat(f, items[..i + 1]) == Concat(f, items[..i]) + f(items[i])
    {
      ConcatAppends(f, items[..i], [items[i]]);
      assert items[..i + 1] == items[..i] + [items[i]];
    }
  }
}
