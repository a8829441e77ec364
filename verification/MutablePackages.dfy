/** Content baselines of agent package copies (ls/core/mutable_packages.py). */
module MutablePackages {
  import opened Wrappers
  import opened Framing
  import opened Ordering
  import opened PackageDigests

  /** What one scan finds under a name; `Other` is a link, a device or a pipe. */
  datatype Entry =
    | Regular(mode: nat, links: nat, data: Bytes)
    | Folder(mode: nat, children: map<string, Entry>)
    | Other

  datatype Fault = EntryLimit | ByteLimit | NotRegular | RootNotDirectory | Missing
                 | InvalidSelection | DuplicateSelection | NotAnAdapter | InvalidBaseline | LocalChanges

  const MAX_ENTRIES := 10000
  const MAX_BYTES := 512 * 1024 * 1024
  const CHUNK := 1024 * 1024

  // ----- the stream -----

  /** `str(n)` for a non-negative integer. */
  function Decimal(n: nat): (s: string)
    ensures s != ""
  {
    if n < 10 then [Digit(n)] else Decimal(n / 10) + [Digit(n % 10)]
  }

  function Digit(n: nat): char
    requires n < 10
  {
    '0' + n as char
  }

  lemma {:induction false} DecimalInjective(m: nat, n: nat)
    requires Decimal(m) == Decimal(n)
    ensures m == n
  {
    var s := Decimal(m);
    assert s[|s| - 1] == Digit(m % 10) == Digit(n % 10);
    if m >= 10 && n >= 10 {
      assert Decimal(m / 10) == s[..|s| - 1] == Decimal(n / 10);
      DecimalInjective(m / 10, n / 10);
    }
  }

  /** The number a text of decimal digits reads as. */
  ghost function DecimalValue(s: string): int {
    if s == "" then 0 else 10 * DecimalValue(s[..|s| - 1]) + (s[|s| - 1] as int - '0' as int)
  }

  /** The text is the number in decimal digits, without a leading zero. */
  lemma {:induction false} DecimalReads(n: nat)
    ensures (forall c :: c in Decimal(n) ==> '0' <= c <= '9') && DecimalValue(Decimal(n)) == n
    ensures n > 0 ==> Decimal(n)[0] != '0'
  {
    if n >= 10 {
      DecimalReads(n / 10);
      assert Decimal(n)[..|Decimal(n)| - 1] == Decimal(n / 10);
    } else {
      assert Decimal(n)[..0] == "";
    }
  }

  /** The frames every entry opens with: name, permission bits, kind. */
  function Header(relative: string, entry: Entry): Bytes
    requires !entry.Other?
  {
    Frame(Utf8(relative)) + (Frame(Utf8(Decimal(entry.mode))) + Frame(Utf8(Kind(entry))))
  }

  function Kind(entry: Entry): string { if entry.Folder? then "directory" else "file" }

  /** Read back frame by frame: the path, the permission bits in decimal, and what it is. */
  lemma HeaderReads(relative: string, entry: Entry, rest: Bytes)
    requires !entry.Other? && |Utf8(relative)| < LIMIT && |Utf8(Decimal(entry.mode))| < LIMIT
    ensures var path := Unframe(Header(relative, entry) + rest);
            && path.Some? && path.value.0 == Utf8(relative)
            && var mode := Unframe(path.value.1);
               && mode.Some? && mode.value.0 == Utf8(Decimal(entry.mode))
               && var kind := Unframe(mode.value.1);
                  && kind.Some? && kind.value.1 == rest
                  && (entry.Folder? <==> kind.value.0 == Utf8("directory"))
                  && (entry.Regular? <==> kind.value.0 == Utf8("file"))
  {
    hide Utf8, Frame, Unframe, Decimal;
    var path, mode, kind := Utf8(relative), Utf8(Decimal(entry.mode)), Utf8(Kind(entry));
    AsciiIsItself("directory");
    AsciiIsItself("file");
    assert Header(relative, entry) + rest == Frame(path) + (Frame(mode) + (Frame(kind) + rest));
    UnframeInverts(path, Frame(mode) + (Frame(kind) + rest));
    UnframeInverts(mode, Frame(kind) + rest);
    UnframeInverts(kind, rest);
  }

  /** Everything one entry contributes, its children in name order. */
  ghost function Stream(hash: Bytes -> Bytes, relative: string, entry: Entry): Bytes
    requires Accepted(entry)
    decreases entry, 1, 0
  {
    if entry.Folder? then
      BeforeTotal();
      Header(relative, entry) + Children(hash, relative, entry, Listed(Before, entry.children.Keys))
    else
      Header(relative, entry) + Frame(hash(entry.data))
  }

  ghost function Children(hash: Bytes -> Bytes, relative: string, folder: Entry, names: seq<string>): Bytes
    requires folder.Folder? && Accepted(folder) && forall n :: n in names ==> n in folder.children
    decreases folder, 0, |names|
  {
    if names == [] then []
    else
      assert names[0] in folder.children;
      Stream(hash, relative + "/" + names[0], folder.children[names[0]]) + Children(hash, relative, folder, names[1..])
  }

  /** Only directories and files with a single name. */
  ghost predicate Accepted(entry: Entry) {
    match entry
    case Regular(_, links, _) => links == 1
    case Folder(_, children) => forall n :: n in children ==> Accepted(children[n])
    case Other => false
  }

  /** How many entries a scan visits, and how many content bytes it reads. */
  ghost function Visits(entry: Entry): nat
    decreases entry, 1, 0
  {
    if entry.Folder? then BeforeTotal(); 1 + VisitsOf(entry, Listed(Before, entry.children.Keys)) else 1
  }

  ghost function VisitsOf(folder: Entry, names: seq<string>): (n: nat)
    requires folder.Folder? && forall n :: n in names ==> n in folder.children
    ensures n >= |names|
    decreases folder, 0, |names|
  {
    if names == [] then 0
    else
      assert names[0] in folder.children;
      Visits(folder.children[names[0]]) + VisitsOf(folder, names[1..])
  }

  ghost function Size(entry: Entry): nat
    decreases entry, 1, 0
  {
    match entry
    case Regular(_, _, content) => |content|
    case Folder(_, children) => BeforeTotal(); SizeOf(entry, Listed(Before, children.Keys))
    case Other => 0
  }

  ghost function SizeOf(folder: Entry, names: seq<string>): nat
    requires folder.Folder? && forall n :: n in names ==> n in folder.children
    decreases folder, 0, |names|
  {
    if names == [] then 0
    else
      assert names[0] in folder.children;
      Size(folder.children[names[0]]) + SizeOf(folder, names[1..])
  }

  // ----- the stream determines the tree -----

  /** Names a file system can hold, twelve permission bits, and names `to_bytes(8)` can measure. */
  ghost predicate Shaped(relative: string, entry: Entry)
    decreases entry
  {
    && |Utf8(relative)| < LIMIT
    && (!entry.Other? ==> entry.mode < 0x1000)
    && (entry.Folder? ==>
          forall n :: n in entry.children ==> Name(n) && Shaped(relative + "/" + n, entry.children[n]))
  }

  /** Every file content of the tree is one of `contents`. */
  ghost predicate Covered(entry: Entry, contents: set<Bytes>) {
    match entry
    case Regular(_, _, content) => content in contents
    case Folder(_, children) => forall n :: n in children ==> Covered(children[n], contents)
    case Other => true
  }

  ghost predicate Digests(hash: Bytes -> Bytes, contents: set<Bytes>) {
    CollisionFree(hash, contents) && forall c :: |hash(c)| == 32
  }

  /** The stream does not open with an entry below `relative`. */
  ghost predicate Outside(relative: string, s: Bytes) {
    forall below: string, rest: Bytes ::
      |Utf8(relative + "/" + below)| < LIMIT ==> s != Frame(Utf8(relative + "/" + below)) + rest
  }

  lemma ModeSized(mode: nat)
    requires mode < 0x1000
    ensures |Utf8(Decimal(mode))| < LIMIT
  {
    DecimalLength(mode);
    Utf8Length(Decimal(mode));
  }

  lemma {:induction false} DecimalLength(n: nat)
    ensures |Decimal(n)| <= n + 1
  {
    if n >= 10 {
      DecimalLength(n / 10);
    }
  }

  lemma {:induction false} Utf8Length(s: string)
    ensures |Utf8(s)| <= 4 * |s|
  {
    if s != [] {
      Utf8Length(s[1..]);
    }
  }

  lemma HeaderCancels(p: string, a: Entry, q: string, b: Entry, r: Bytes, s: Bytes)
    requires !a.Other? && !b.Other? && a.mode < 0x1000 && b.mode < 0x1000
    requires |Utf8(p)| < LIMIT && |Utf8(q)| < LIMIT
    requires Header(p, a) + r == Header(q, b) + s
    ensures p == q && a.mode == b.mode && a.Folder? == b.Folder? && r == s
  {
    hide Frame, Decimal, Utf8, Kind;
    ModeSized(a.mode);
    ModeSized(b.mode);
    KindSized(a);
    KindSized(b);
    var m, n := Frame(Utf8(Decimal(a.mode))), Frame(Utf8(Decimal(b.mode)));
    var k, l := Frame(Utf8(Kind(a))), Frame(Utf8(Kind(b)));
    assert Header(p, a) + r == Frame(Utf8(p)) + (m + (k + r));
    assert Header(q, b) + s == Frame(Utf8(q)) + (n + (l + s));
    FrameCancels(Utf8(p), Utf8(q), m + (k + r), n + (l + s));
    FrameCancels(Utf8(Decimal(a.mode)), Utf8(Decimal(b.mode)), k + r, l + s);
    FrameCancels(Utf8(Kind(a)), Utf8(Kind(b)), r, s);
    Utf8Injective(p, q);
    Utf8Injective(Decimal(a.mode), Decimal(b.mode));
    DecimalInjective(a.mode, b.mode);
    Utf8Injective(Kind(a), Kind(b));
    KindDecides(a, b);
  }

  lemma KindDecides(a: Entry, b: Entry)
    requires Kind(a) == Kind(b)
    ensures a.Folder? == b.Folder?
  {
    assert |"directory"| == 9 && |"file"| == 4;
  }

  lemma KindSized(entry: Entry)
    ensures |Utf8(Kind(entry))| < LIMIT
  {
    Utf8Length(Kind(entry));
  }

  /** Whatever follows the children of a folder is outside each of them. */
  lemma RestOutside(hash: Bytes -> Bytes, relative: string, folder: Entry, name: string, names: seq<string>, r: Bytes)
    requires folder.Folder? && Accepted(folder) && Shaped(relative, folder)
    requires (forall n :: n in names ==> n in folder.children) && Outside(relative, r)
    ensures Outside(relative + "/" + name, Children(hash, relative, folder, names) + r)
  {
    hide Frame, Utf8, Decimal, Name, Shaped, Stream, Children;
    var s := Children(hash, relative, folder, names) + r;
    if names == [] {
      NoNames(hash, relative, folder, r);
    } else {
      FirstChild(hash, relative, folder, names, r);
    }
    forall below: string, rest: Bytes | |Utf8(relative + "/" + name + "/" + below)| < LIMIT
      ensures s != Frame(Utf8(relative + "/" + name + "/" + below)) + rest
    {
      assert relative + "/" + name + "/" + below == relative + "/" + (name + "/" + below);
      if names != [] {
        var after := Children(hash, relative, folder, names[1..]) + r;
        NextIsNot(hash, relative, folder, names[0], after, name + "/" + below, rest);
      }
    }
  }

  lemma FirstChild(hash: Bytes -> Bytes, relative: string, folder: Entry, names: seq<string>, r: Bytes)
    requires folder.Folder? && Accepted(folder) && names != [] && forall n :: n in names ==> n in folder.children
    ensures names[0] in folder.children && Accepted(folder.children[names[0]])
    ensures Children(hash, relative, folder, names) + r
         == Stream(hash, relative + "/" + names[0], folder.children[names[0]])
            + (Children(hash, relative, folder, names[1..]) + r)
  {
    hide Stream;
    assert names[0] in names;
  }

  lemma NextIsNot(hash: Bytes -> Bytes, relative: string, folder: Entry, next: string, s: Bytes, other: string,
                  rest: Bytes)
    requires folder.Folder? && Accepted(folder) && Shaped(relative, folder) && next in folder.children
    requires '/' in other && |Utf8(relative + "/" + other)| < LIMIT
    ensures Stream(hash, relative + "/" + next, folder.children[next]) + s != Frame(Utf8(relative + "/" + other)) + rest
  {
    hide Frame, Utf8, Decimal;
    var child := folder.children[next];
    var path := relative + "/" + next;
    assert path != relative + "/" + other by {
      assert path[|relative| + 1..] == next && (relative + "/" + other)[|relative| + 1..] == other;
    }
    assert Shaped(path, child);
    StreamOpens(hash, path, child);
    var tail: Bytes :| Stream(hash, path, child) == Frame(Utf8(path)) + tail;
    assert Stream(hash, path, child) + s == Frame(Utf8(path)) + (tail + s);
    if Frame(Utf8(path)) + (tail + s) == Frame(Utf8(relative + "/" + other)) + rest {
      FrameCancels(Utf8(path), Utf8(relative + "/" + other), tail + s, rest);
      Utf8Injective(path, relative + "/" + other);
      assert false;
    }
  }

  lemma StreamOpens(hash: Bytes -> Bytes, path: string, entry: Entry)
    requires Accepted(entry)
    ensures exists tail: Bytes :: Stream(hash, path, entry) == Frame(Utf8(path)) + tail
  {
    hide Frame, Utf8, Decimal, Stream;
    var kind := Frame(Utf8(Decimal(entry.mode))) + Frame(Utf8(Kind(entry)));
    var rest := AfterHeader(hash, path, entry);
    assert Header(path, entry) + rest == Frame(Utf8(path)) + (kind + rest);
  }

  lemma AfterHeader(hash: Bytes -> Bytes, path: string, entry: Entry) returns (rest: Bytes)
    requires Accepted(entry)
    ensures Stream(hash, path, entry) == Header(path, entry) + rest
  {
    hide Header, Frame;
    if entry.Folder? {
      BeforeTotal();
      rest := Children(hash, path, entry, Listed(Before, entry.children.Keys));
    } else {
      rest := Frame(hash(entry.data));
    }
  }

  /** Equal streams come from equal entries, and what follows is equal too. */
  lemma {:induction false} StreamCancels(hash: Bytes -> Bytes, contents: set<Bytes>, relative: string, a: Entry,
                                         b: Entry, r: Bytes, s: Bytes)
    requires Accepted(a) && Accepted(b) && Shaped(relative, a) && Shaped(relative, b)
    requires Covered(a, contents) && Covered(b, contents) && Digests(hash, contents)
    requires Outside(relative, r) && Outside(relative, s)
    requires Stream(hash, relative, a) + r == Stream(hash, relative, b) + s
    ensures a == b && r == s
    decreases a, 1, 0
  {
    hide Frame, Utf8, Decimal, Outside, CollisionFree, Header;
    BeforeTotal();
    var x := Stream(hash, relative, a)[|Header(relative, a)|..];
    var y := Stream(hash, relative, b)[|Header(relative, b)|..];
    assert Stream(hash, relative, a) + r == Header(relative, a) + (x + r);
    assert Stream(hash, relative, b) + s == Header(relative, b) + (y + s);
    HeaderCancels(relative, a, relative, b, x + r, y + s);
    if a.Folder? {
      var p, q := Listed(Before, a.children.Keys), Listed(Before, b.children.Keys);
      assert x == Children(hash, relative, a, p) && y == Children(hash, relative, b, q);
      ChildrenCancel(hash, contents, relative, a, p, b, q, r, s);
      assert a.children == b.children;
    } else {
      assert x == Frame(hash(a.data)) && y == Frame(hash(b.data));
      FrameCancels(hash(a.data), hash(b.data), r, s);
      Distinguishes(hash, contents, a.data, b.data);
    }
  }

  lemma Distinguishes(hash: Bytes -> Bytes, contents: set<Bytes>, a: Bytes, b: Bytes)
    requires Digests(hash, contents) && a in contents && b in contents && hash(a) == hash(b)
    ensures a == b
  {
  }

  lemma {:induction false} ChildrenCancel(hash: Bytes -> Bytes, contents: set<Bytes>, relative: string,
                                          a: Entry, p: seq<string>, b: Entry, q: seq<string>, r: Bytes, s: Bytes)
    requires a.Folder? && b.Folder? && Accepted(a) && Accepted(b) && Shaped(relative, a) && Shaped(relative, b)
    requires Covered(a, contents) && Covered(b, contents) && Digests(hash, contents)
    requires (forall n :: n in p ==> n in a.children) && (forall n :: n in q ==> n in b.children)
    requires Outside(relative, r) && Outside(relative, s)
    requires Children(hash, relative, a, p) + r == Children(hash, relative, b, q) + s
    ensures p == q && r == s && forall n :: n in p ==> a.children[n] == b.children[n]
    decreases a, 0, |p|
  {
    hide Frame, Utf8, Decimal, CollisionFree, Header, Digests;
    if p == [] {
      NoChild(hash, relative, b, q, r, s);
    } else if q == [] {
      NoChild(hash, relative, a, p, s, r);
    } else {
      assert p[0] in p && q[0] in q;
      var m, n := p[0], q[0];
      var c, d := a.children[m], b.children[n];
      var t, u := Children(hash, relative, a, p[1..]) + r, Children(hash, relative, b, q[1..]) + s;
      assert Stream(hash, relative + "/" + m, c) + t == Children(hash, relative, a, p) + r;
      assert Stream(hash, relative + "/" + n, d) + u == Children(hash, relative, b, q) + s;
      SameName(hash, relative, m, c, n, d, t, u);
      RestOutside(hash, relative, a, m, p[1..], r);
      RestOutside(hash, relative, b, n, q[1..], s);
      StreamCancels(hash, contents, relative + "/" + m, c, d, t, u);
      ChildrenCancel(hash, contents, relative, a, p[1..], b, q[1..], r, s);
      assert p == [p[0]] + p[1..] && q == [q[0]] + q[1..];
    }
  }

  lemma NoChild(hash: Bytes -> Bytes, relative: string, folder: Entry, names: seq<string>, r: Bytes, s: Bytes)
    requires folder.Folder? && Accepted(folder) && Shaped(relative, folder)
    requires (forall n :: n in names ==> n in folder.children) && Outside(relative, r)
    requires r == Children(hash, relative, folder, names) + s
    ensures names == [] && r == s
  {
    hide Stream, Children, Outside, Shaped, Accepted;
    if names != [] {
      ChildBelow(hash, relative, folder, names, s);
    } else {
      NoNames(hash, relative, folder, s);
    }
  }

  lemma NoNames(hash: Bytes -> Bytes, relative: string, folder: Entry, s: Bytes)
    requires folder.Folder? && Accepted(folder)
    ensures Children(hash, relative, folder, []) + s == s
  {
  }

  lemma ChildBelow(hash: Bytes -> Bytes, relative: string, folder: Entry, names: seq<string>, s: Bytes)
    requires folder.Folder? && Accepted(folder) && Shaped(relative, folder)
    requires names != [] && forall n :: n in names ==> n in folder.children
    ensures !Outside(relative, Children(hash, relative, folder, names) + s)
  {
    hide Frame, Utf8, Decimal, Header;
    var n := names[0];
    assert n in names;
    var child := folder.children[n];
    StreamOpens(hash, relative + "/" + n, child);
    var tail: Bytes :| Stream(hash, relative + "/" + n, child) == Frame(Utf8(relative + "/" + n)) + tail;
    var rest := tail + (Children(hash, relative, folder, names[1..]) + s);
    assert Shaped(relative + "/" + n, child);
    assert Children(hash, relative, folder, names) + s == Frame(Utf8(relative + "/" + n)) + rest;
  }

  lemma SameName(hash: Bytes -> Bytes, relative: string, m: string, c: Entry, n: string, d: Entry, t: Bytes, u: Bytes)
    requires Accepted(c) && Accepted(d)
    requires |Utf8(relative + "/" + m)| < LIMIT && |Utf8(relative + "/" + n)| < LIMIT
    requires Stream(hash, relative + "/" + m, c) + t == Stream(hash, relative + "/" + n, d) + u
    ensures m == n
  {
    hide Frame, Utf8, Decimal, Header, Stream, Accepted;
    var p, q := relative + "/" + m, relative + "/" + n;
    StreamOpens(hash, p, c);
    StreamOpens(hash, q, d);
    var x: Bytes :| Stream(hash, p, c) == Frame(Utf8(p)) + x;
    var y: Bytes :| Stream(hash, q, d) == Frame(Utf8(q)) + y;
    assert Stream(hash, p, c) + t == Frame(Utf8(p)) + (x + t);
    assert Stream(hash, q, d) + u == Frame(Utf8(q)) + (y + u);
    FrameCancels(Utf8(p), Utf8(q), x + t, y + u);
    Utf8Injective(p, q);
    assert m == p[|relative| + 1..] == q[|relative| + 1..] == n;
  }

  // ----- the scan -----

  /** The scan succeeds exactly on these packages. */
  ghost predicate Acceptable(package: Entry) {
    package.Folder? && Accepted(package) && Visits(package) <= MAX_ENTRIES && Size(package) <= MAX_BYTES
  }

  /** What the child at `i` adds to the stream and to both counters. */
  lemma Unroll(hash: Bytes -> Bytes, relative: string, folder: Entry, names: seq<string>, i: nat, before: Bytes)
    requires folder.Folder? && i < |names| && forall n :: n in names ==> n in folder.children
    ensures names[i] in folder.children
    ensures VisitsOf(folder, names[i..]) == Visits(folder.children[names[i]]) + VisitsOf(folder, names[i + 1..])
    ensures SizeOf(folder, names[i..]) == Size(folder.children[names[i]]) + SizeOf(folder, names[i + 1..])
    ensures Accepted(folder) ==>
              Accepted(folder.children[names[i]])
              && before + Children(hash, relative, folder, names[i..])
                 == before + Stream(hash, relative + "/" + names[i], folder.children[names[i]])
                    + Children(hash, relative, folder, names[i + 1..])
  {
    hide Stream, Visits, Size;
    assert names[i] in names;
    assert names[i..][0] == names[i] && names[i..][1..] == names[i + 1..];
  }

  lemma NoMore(hash: Bytes -> Bytes, relative: string, folder: Entry, names: seq<string>)
    requires folder.Folder? && names == []
    ensures VisitsOf(folder, names) == 0 && SizeOf(folder, names) == 0
    ensures Accepted(folder) ==> Children(hash, relative, folder, names) == []
  {
  }

  /** One `package_fingerprint` call: the hash state and its two counters. */
  class Inspection {
    const hash: Bytes -> Bytes
    var digest: Bytes
    var count: nat
    var total: nat

    constructor (hash: Bytes -> Bytes)
      ensures this.hash == hash && digest == [] && count == total == 0
    {
      this.hash := hash;
      digest, count, total := [], 0, 0;
    }

    /** `_frame`. */
    method Feed(value: Bytes)
      modifies this`digest
      ensures digest == old(digest) + Frame(value)
    {
      digest := digest + BigEndian(|value|, 8);
      digest := digest + value;
    }

    /** Feeds one entry and everything below it, or stops at the first fault. */
    method Visit(relative: string, entry: Entry) returns (fault: Option<Fault>)
      requires total <= MAX_BYTES
      modifies this
      ensures fault.None? <==>
                && Accepted(entry) && (relative == "" ==> entry.Folder?)
                && old(count) + Visits(entry) <= MAX_ENTRIES && old(total) + Size(entry) <= MAX_BYTES
      ensures fault.None? ==>
                && digest == old(digest) + Stream(hash, relative, entry)
                && count == old(count) + Visits(entry) && total == old(total) + Size(entry)
      decreases entry, 1
    {
      hide Frame, Utf8, Decimal, Total, Sorted, Before, Kind, Children, VisitsOf, SizeOf;
      count := count + 1;
      if count > MAX_ENTRIES {
        return Some(EntryLimit);
      }
      if entry.Other? || (entry.Regular? && entry.links != 1) {
        return Some(NotRegular);
      }
      if relative == "" && !entry.Folder? {
        return Some(RootNotDirectory);
      }
      ghost var before := digest;
      Feed(Utf8(relative));
      Feed(Utf8(Decimal(entry.mode)));
      Feed(Utf8(Kind(entry)));
      assert digest == before + Header(relative, entry);
      if entry.Folder? {
        fault := VisitChildren(relative, entry);
      } else {
        fault := ReadContent(entry.data);
      }
    }

    /** The children in name order; more than the limit is refused while listing. */
    method VisitChildren(relative: string, folder: Entry) returns (fault: Option<Fault>)
      requires folder.Folder? && total <= MAX_BYTES && 1 <= count <= MAX_ENTRIES
      modifies this
      ensures fault.None? <==>
                && Accepted(folder)
                && old(count) + Visits(folder) - 1 <= MAX_ENTRIES && old(total) + Size(folder) <= MAX_BYTES
      ensures fault.None? ==>
                && (BeforeTotal();
                    digest == old(digest) + Children(hash, relative, folder, Listed(Before, folder.children.Keys)))
                && count == old(count) + Visits(folder) - 1 && total == old(total) + Size(folder)
      decreases folder, 0
    {
      hide Total, Sorted, Before, Stream, Children, VisitsOf, SizeOf;
      BeforeTotal();
      var names := SortedList(Before, folder.children.Keys);
      SortedUnique(Before, names, Listed(Before, folder.children.Keys));
      if |names| > MAX_ENTRIES {
        return Some(EntryLimit);
      }
      fault := VisitNames(relative, folder, names);
      assert forall n :: n in folder.children ==> n in names;
    }

    method VisitNames(relative: string, folder: Entry, names: seq<string>) returns (fault: Option<Fault>)
      requires folder.Folder? && total <= MAX_BYTES && count <= MAX_ENTRIES
      requires forall n :: n in names ==> n in folder.children
      modifies this
      ensures fault.None? <==>
                && (forall n :: n in names ==> Accepted(folder.children[n]))
                && old(count) + VisitsOf(folder, names) <= MAX_ENTRIES
                && old(total) + SizeOf(folder, names) <= MAX_BYTES
      ensures fault.None? && Accepted(folder) ==> digest == old(digest) + Children(hash, relative, folder, names)
      ensures fault.None? ==>
                count == old(count) + VisitsOf(folder, names) && total == old(total) + SizeOf(folder, names)
      decreases folder, 0, |names|
    {
      hide Stream, Accepted, Children, Visits, Size, VisitsOf, SizeOf;
      for i := 0 to |names|
        invariant total <= MAX_BYTES && count <= MAX_ENTRIES
        invariant forall k :: 0 <= k < i ==> Accepted(folder.children[names[k]])
        invariant count + VisitsOf(folder, names[i..]) == old(count) + VisitsOf(folder, names)
        invariant total + SizeOf(folder, names[i..]) == old(total) + SizeOf(folder, names)
        invariant Accepted(folder) ==>
                    digest + Children(hash, relative, folder, names[i..])
                    == old(digest) + Children(hash, relative, folder, names)
      {
        assert names[i] in names;
        Unroll(hash, relative, folder, names, i, digest);
        fault := Visit(relative + "/" + names[i], folder.children[names[i]]);
        if fault.Some? {
          return;
        }
      }
      NoMore(hash, relative, folder, names[|names|..]);
      fault := None;
    }

    /** The content hash, a chunk at a time. */
    method ReadContent(data: Bytes) returns (fault: Option<Fault>)
      requires total <= MAX_BYTES
      modifies this`digest, this`total
      ensures fault.None? <==> old(total) + |data| <= MAX_BYTES
      ensures fault.None? ==> digest == old(digest) + Frame(hash(data)) && total == old(total) + |data|
    {
      var content: Bytes := [];
      var offset := 0;
      while offset < |data|
        invariant 0 <= offset <= |data| && content == data[..offset]
        invariant total == old(total) + offset <= MAX_BYTES && digest == old(digest)
      {
        var end := if offset + CHUNK < |data| then offset + CHUNK else |data|;
        total := total + (end - offset);
        if total > MAX_BYTES {
          return Some(ByteLimit);
        }
        content := content + data[offset..end];
        offset := end;
      }
      assert content == data;
      Feed(hash(content));
      fault := None;
    }
  }

  /** `package_fingerprint`, as the hash of the stream. */
  method PackageFingerprint(hash: Bytes -> Bytes, package: Option<Entry>) returns (res: Result<string, Fault>)
    ensures res.Ok? <==> package.Some? && Acceptable(package.value)
    ensures res.Ok? ==> res.value == Fingerprint(hash, package.value)
  {
    hide Stream, Visits, Size, Accepted;
    if package.None? {
      return Err(Missing);
    }
    var inspection := new Inspection(hash);
    var fault := inspection.Visit("", package.value);
    if fault.Some? {
      return Err(fault.value);
    }
    assert inspection.digest == Stream(hash, "", package.value);
    res := Ok(Hex(hash(inspection.digest)));
  }

  ghost function Fingerprint(hash: Bytes -> Bytes, package: Entry): string
    requires Acceptable(package)
  {
    Hex(hash(Stream(hash, "", package)))
  }

  function HexDigit(n: nat): char
    requires n < 16
  {
    if n < 10 then '0' + n as char else 'a' + (n - 10) as char
  }

  predicate HexChar(c: char) { '0' <= c <= '9' || 'a' <= c <= 'f' }

  /** `hexdigest`. */
  function Hex(b: Bytes): (s: string)
    ensures |s| == 2 * |b| && forall c :: c in s ==> HexChar(c)
  {
    if b == [] then "" else [HexDigit(b[0] / 16), HexDigit(b[0] % 16)] + Hex(b[1..])
  }

  ghost function HexValue(c: char): int { if c <= '9' then c as int - '0' as int else c as int - 'a' as int + 10 }

  /** Two digits a byte, the high one first. */
  lemma {:induction false} HexReads(b: Bytes, i: nat)
    requires i < |b|
    ensures 16 * HexValue(Hex(b)[2 * i]) + HexValue(Hex(b)[2 * i + 1]) == b[i]
  {
    if i > 0 {
      HexReads(b[1..], i - 1);
    }
  }

  lemma {:induction false} HexInjective(a: Bytes, b: Bytes)
    requires Hex(a) == Hex(b)
    ensures a == b
  {
    if a != [] && b != [] {
      assert Hex(a)[0] == HexDigit(a[0] / 16) && Hex(a)[1] == HexDigit(a[0] % 16) && Hex(a)[2..] == Hex(a[1..]);
      assert Hex(b)[0] == HexDigit(b[0] / 16) && Hex(b)[1] == HexDigit(b[0] % 16) && Hex(b)[2..] == Hex(b[1..]);
      HexInjective(a[1..], b[1..]);
      assert a == [a[0]] + a[1..] && b == [b[0]] + b[1..];
    }
  }

  /**
   * Two accepted packages have one fingerprint exactly when they are equal:
   * every name, permission, kind and byte.
   */
  lemma FingerprintDetermines(hash: Bytes -> Bytes, contents: set<Bytes>, a: Entry, b: Entry)
    requires Acceptable(a) && Acceptable(b) && Shaped("", a) && Shaped("", b)
    requires Covered(a, contents) && Covered(b, contents) && Digests(hash, contents)
    requires CollisionFree(hash, {Stream(hash, "", a), Stream(hash, "", b)})
    ensures Fingerprint(hash, a) == Fingerprint(hash, b) <==> a == b
  {
    hide Stream, Shaped, Covered, Digests, Accepted, Visits, Size;
    var s, t := Stream(hash, "", a), Stream(hash, "", b);
    if Hex(hash(s)) == Hex(hash(t)) {
      HexInjective(hash(s), hash(t));
      assert s in {s, t} && t in {s, t};
      NothingOutside();
      assert s + [] == t + [];
      StreamCancels(hash, contents, "", a, b, [], []);
    }
  }

  lemma NothingOutside()
    ensures Outside("", [])
  {
    forall below: string, rest: Bytes
      ensures [] != Frame(Utf8("" + "/" + below)) + rest
    {
      assert |Frame(Utf8("" + "/" + below))| >= 8;
    }
  }

  // ----- baselines -----

  predicate SafeName(name: string) { name != "" && '/' !in name && name != "." && name != ".." }

  /** Every named package is present and can be fingerprinted. */
  ghost predicate AllAcceptable(adapter: map<string, Entry>, names: set<string>) {
    forall n :: n in names ==> n in adapter && Acceptable(adapter[n])
  }

  ghost function Baselines(hash: Bytes -> Bytes, adapter: map<string, Entry>, names: set<string>): map<string, string>
    requires AllAcceptable(adapter, names)
  {
    map n | n in names :: Fingerprint(hash, adapter[n])
  }

  /** `capture_baselines`; the adapter is absent when it is not a regular directory. */
  method CaptureBaselines(hash: Bytes -> Bytes, adapter: Option<map<string, Entry>>, names: seq<string>)
    returns (res: Result<map<string, string>, Fault>)
    ensures res.Ok? <==>
              && (forall n :: n in names ==> SafeName(n)) && Distinct(names)
              && adapter.Some? && AllAcceptable(adapter.value, set n | n in names)
    ensures res.Ok? ==> res.value == Baselines(hash, adapter.value, set n | n in names)
    ensures (exists n :: n in names && (n in ["", ".", ".."] || '/' in n)) ==> res == Err(InvalidSelection)
    ensures (forall n :: n in names ==> n !in ["", ".", ".."] && '/' !in n) ==>
              && (!Distinct(names) ==> res == Err(DuplicateSelection))
              && (Distinct(names) && adapter.None? ==> res == Err(NotAnAdapter))
  {
    forall n
      ensures SafeName(n) <==> !(n in ["", ".", ".."] || '/' in n)
    {
    }
    hide AllAcceptable, Fingerprint, SafeName;
    if exists n :: n in names && !SafeName(n) {
      return Err(InvalidSelection);
    }
    if !Distinct(names) {
      return Err(DuplicateSelection);
    }
    if adapter.None? {
      return Err(NotAnAdapter);
    }
    res := CaptureAll(hash, adapter.value, set n | n in names);
  }

  /** The fingerprints of a checked selection, in name order; the first fault stops it. */
  method CaptureAll(hash: Bytes -> Bytes, adapter: map<string, Entry>, wanted: set<string>)
    returns (res: Result<map<string, string>, Fault>)
    ensures res.Ok? <==> AllAcceptable(adapter, wanted)
    ensures res.Ok? ==> res.value == Baselines(hash, adapter, wanted)
  {
    hide Acceptable, Before, Total, Sorted, Fingerprint, AllAcceptable, Baselines;
    BeforeTotal();
    var order := SortedList(Before, wanted);
    var captured: map<string, string> := map[];
    ghost var done: set<string> := {};
    NoBaselines(hash, adapter);
    for i := 0 to |order|
      invariant forall n :: n in done <==> n in order[..i]
      invariant AllAcceptable(adapter, done) && captured == Baselines(hash, adapter, done)
    {
      var name := order[i];
      assert name in order && order[..i + 1] == order[..i] + [name];
      var one := PackageFingerprint(hash, Lookup(adapter, name));
      OneBaseline(hash, adapter, done, wanted, name);
      if one.Err? {
        return Err(one.error);
      }
      captured := captured[name := one.value];
      done := done + {name};
    }
    assert order[..|order|] == order;
    assert done == wanted;
    res := Ok(captured);
  }

  lemma NoBaselines(hash: Bytes -> Bytes, adapter: map<string, Entry>)
    ensures AllAcceptable(adapter, {}) && Baselines(hash, adapter, {}) == map[]
  {
  }

  lemma OneBaseline(hash: Bytes -> Bytes, adapter: map<string, Entry>, done: set<string>, wanted: set<string>,
                    n: string)
    requires AllAcceptable(adapter, done) && n in wanted
    ensures AllAcceptable(adapter, wanted) ==> n in adapter && Acceptable(adapter[n])
    ensures n in adapter && Acceptable(adapter[n]) ==>
              && AllAcceptable(adapter, done + {n})
              && Baselines(hash, adapter, done + {n})
                  == Baselines(hash, adapter, done)[n := Fingerprint(hash, adapter[n])]
  {
    hide Acceptable, Fingerprint;
  }

  predicate DigestText(value: string) { |value| == 64 && forall c :: c in value ==> HexChar(c) }

  /** What `require_unchanged` accepts. */
  ghost predicate Unchanged(hash: Bytes -> Bytes, adapter: Option<map<string, Entry>>, baseline: map<string, string>) {
    && (forall n :: n in baseline ==> DigestText(baseline[n]) && SafeName(n))
    && adapter.Some? && AllAcceptable(adapter.value, baseline.Keys)
    && Baselines(hash, adapter.value, baseline.Keys) == baseline
  }

  method RequireUnchanged(hash: Bytes -> Bytes, adapter: Option<map<string, Entry>>, baseline: map<string, string>,
                          keys: seq<string>)
    returns (res: Result<(), Fault>)
    requires Distinct(keys) && forall n :: n in keys <==> n in baseline
    ensures res.Ok? <==> Unchanged(hash, adapter, baseline)
  {
    hide Acceptable, DigestText, SafeName, Fingerprint;
    if exists n :: n in baseline && !DigestText(baseline[n]) {
      return Err(InvalidBaseline);
    }
    var current := CaptureBaselines(hash, adapter, keys);
    assert (set n | n in keys) == baseline.Keys;
    assert forall n :: n in keys <==> n in baseline;
    if current.Err? {
      return Err(current.error);
    }
    if current.value != baseline {
      return Err(LocalChanges);
    }
    res := Ok(());
  }

  /**
   * A baseline captured from one adapter state is accepted in another exactly
   * when every recorded package is still there, name for name and byte for byte.
   */
  lemma UnchangedMeansIdentical(hash: Bytes -> Bytes, contents: set<Bytes>, before: map<string, Entry>,
                                after: map<string, Entry>, names: set<string>)
    requires AllAcceptable(before, names) && forall n :: n in names ==> SafeName(n)
    requires Digests(hash, contents)
    requires forall n :: n in names ==> Shaped("", before[n]) && Covered(before[n], contents)
    requires forall n :: n in names && n in after ==> Shaped("", after[n]) && Covered(after[n], contents)
    requires forall n :: n in names && n in after && Acceptable(after[n]) ==>
               CollisionFree(hash, {Stream(hash, "", before[n]), Stream(hash, "", after[n])})
    ensures Unchanged(hash, Some(after), Baselines(hash, before, names))
       <==> forall n :: n in names ==> n in after && after[n] == before[n]
  {
    hide Acceptable, Shaped, Covered, SafeName, CollisionFree, Stream, DigestText, Fingerprint;
    var baseline := Baselines(hash, before, names);
    assert baseline.Keys == names;
    forall n | n in names
      ensures DigestText(baseline[n])
    {
      FingerprintText(hash, contents, before[n]);
    }
    if AllAcceptable(after, names) {
      forall n | n in names
        ensures Fingerprint(hash, after[n]) == baseline[n] <==> after[n] == before[n]
      {
        Identical(hash, contents, after[n], before[n]);
      }
      var current := Baselines(hash, after, names);
      assert current.Keys == names;
      if forall n :: n in names ==> after[n] == before[n] {
        assert current == baseline;
      }
      if current == baseline {
        forall n | n in names
          ensures after[n] == before[n]
        {
          assert current[n] == baseline[n];
        }
      }
    }
  }

  lemma Identical(hash: Bytes -> Bytes, contents: set<Bytes>, a: Entry, b: Entry)
    requires Acceptable(a) && Acceptable(b) && Shaped("", a) && Shaped("", b)
    requires Covered(a, contents) && Covered(b, contents) && Digests(hash, contents)
    requires CollisionFree(hash, {Stream(hash, "", b), Stream(hash, "", a)})
    ensures Fingerprint(hash, a) == Fingerprint(hash, b) <==> a == b
  {
    hide Stream, Shaped, Covered, Digests, Accepted, Visits, Size, Fingerprint;
    assert {Stream(hash, "", b), Stream(hash, "", a)} == {Stream(hash, "", a), Stream(hash, "", b)};
    FingerprintDetermines(hash, contents, a, b);
  }

  lemma FingerprintText(hash: Bytes -> Bytes, contents: set<Bytes>, package: Entry)
    requires Acceptable(package) && Digests(hash, contents)
    ensures DigestText(Fingerprint(hash, package))
  {
    hide Stream, Accepted, Visits, Size;
  }
}
