/** One marked block inside a crontab text (ls/core/harness_schedule.py, `_merge`). */
module HeartbeatBlock {
  import opened Wrappers
  import opened Text

  /** A SHA-256 digest, taken as collision-free: it stands for the text it was made from. */
  datatype Digest = Sha(text: string)

  // ----- str.splitlines(keepends=True) -----

  /** Every line boundary of Python's `splitlines`; "\r\n" counts as one. */
  predicate Break(c: char) {
    var n := c as int;
    10 <= n <= 13 || 28 <= n <= 30 || n == 0x85 || n == 0x2028 || n == 0x2029
  }

  /** Line feed to carriage return, the file, group and record separators, next line, and the two Unicode ones. */
  lemma Breaks(c: char)
    ensures Break(c) <==> c as int in {0x0A, 0x0B, 0x0C, 0x0D, 0x1C, 0x1D, 0x1E, 0x85, 0x2028, 0x2029}
  {
  }

  /** The length of the first line, its boundary included. */
  function Cut(s: string): (n: nat)
    requires s != ""
    ensures 0 < n <= |s|
  {
    if s[0] == '\r' && |s| > 1 && s[1] == '\n' then 2
    else if Break(s[0]) || |s| == 1 then 1
    else 1 + Cut(s[1..])
  }

  function Lines(s: string): seq<string> {
    if s == "" then [] else [s[..Cut(s)]] + Lines(s[Cut(s)..])
  }

  function Join(lines: seq<string>): string { if lines == [] then "" else lines[0] + Join(lines[1..]) }

  /** `a` ends where a line ends. */
  predicate Terminated(a: string) { a == "" || Break(a[|a| - 1]) }

  /** A boundary stays one when `b` follows: no "\r\n" is formed. */
  predicate Closed(a: string, b: string) {
    a == "" || (Break(a[|a| - 1]) && !(a[|a| - 1] == '\r' && b != "" && b[0] == '\n'))
  }

  lemma {:induction false} CutConcat(a: string, b: string)
    requires a != "" && (Closed(a, b) || Cut(a) < |a|)
    ensures Cut(a + b) == Cut(a)
  {
    if |a| > 1 && !Break(a[0]) {
      assert (a + b)[1..] == a[1..] + b;
      CutConcat(a[1..], b);
    }
  }

  lemma {:induction false} LinesConcat(a: string, b: string)
    requires Closed(a, b)
    ensures Lines(a + b) == Lines(a) + Lines(b)
  {
    if a == "" {
      assert a + b == b;
    } else {
      CutConcat(a, b);
      hide Cut, Break;
      var n := Cut(a);
      assert (a + b)[..n] == a[..n] && (a + b)[n..] == a[n..] + b;
      LinesConcat(a[n..], b);
      assert Lines(a + b) == [a[..n]] + Lines(a[n..] + b) && Lines(a) == [a[..n]] + Lines(a[n..]);
    }
  }

  lemma {:induction false} CutEnds(s: string)
    requires s != ""
    ensures Cut(s) < |s| ==> Closed(s[..Cut(s)], s[Cut(s)..])
    ensures Cut(s[..Cut(s)]) == Cut(s)
  {
    if |s| > 1 && !Break(s[0]) {
      CutEnds(s[1..]);
      var n := Cut(s);
      assert s[..n][1..] == s[1..][..n - 1];
      assert s[n..] == s[1..][n - 1..];
      if n < |s| {
        assert s[..n][n - 1] == s[1..][..n - 1][n - 2];
      }
    }
  }

  /** How much of the text its first `i` lines take. */
  function Offset(s: string, i: nat): (n: nat)
    ensures n <= |s|
  {
    if i == 0 || s == "" then 0 else Cut(s) + Offset(s[Cut(s)..], i - 1)
  }

  lemma {:induction false} OffsetSplits(s: string, i: nat)
    requires i <= |Lines(s)|
    ensures Lines(s[..Offset(s, i)]) == Lines(s)[..i] && Lines(s[Offset(s, i)..]) == Lines(s)[i..]
    ensures Offset(s, i) < |s| ==> Closed(s[..Offset(s, i)], s[Offset(s, i)..])
    ensures Offset(s, i) == |s| <==> i == |Lines(s)|
    decreases i
  {
    hide Break, Lines, Cut, Offset;
    FirstLine(s, i);
    if i > 0 {
      var n := Cut(s);
      var line, rest, m := s[..n], s[n..], Offset(s[n..], i - 1);
      OffsetSplits(rest, i - 1);
      OneLine(s);
      assert s[..n + m] == line + rest[..m] && s[n + m..] == rest[m..];
      if rest == "" {
        assert line + rest[..m] == line;
      } else {
        assert rest[..m] != "" ==> rest[..m][0] == rest[0];
        LinesConcat(line, rest[..m]);
      }
      assert Lines(s)[..i] == [line] + Lines(rest)[..i - 1] && Lines(s)[i..] == Lines(rest)[i - 1..];
      assert n + m < |s| ==> Closed(s[..n + m], s[n + m..]);
    } else {
      assert s[..0] == "" && s[0..] == s;
    }
  }

  lemma FirstLine(s: string, i: nat)
    requires i <= |Lines(s)|
    ensures i == 0 ==> Offset(s, i) == 0
    ensures Lines("") == [] && (s == "" <==> Lines(s) == [])
    ensures i > 0 ==>
              && Lines(s) == [s[..Cut(s)]] + Lines(s[Cut(s)..])
              && Offset(s, i) == Cut(s) + Offset(s[Cut(s)..], i - 1)
              && (s[Cut(s)..] != "" ==> Closed(s[..Cut(s)], s[Cut(s)..]))
  {
    if s != "" {
      CutEnds(s);
    }
  }

  lemma OneLine(s: string)
    requires s != ""
    ensures Lines(s[..Cut(s)]) == [s[..Cut(s)]]
  {
    CutEnds(s);
    var line := s[..Cut(s)];
    assert line[..|line|] == line && line[|line|..] == "";
  }

  /** Cutting the list of lines cuts the text, and neither side's lines change. */
  lemma SplitLines(s: string, i: nat)
    requires i <= |Lines(s)|
    ensures s == Join(Lines(s)[..i]) + Join(Lines(s)[i..])
    ensures Lines(Join(Lines(s)[..i])) == Lines(s)[..i] && Lines(Join(Lines(s)[i..])) == Lines(s)[i..]
    ensures i < |Lines(s)| ==> Terminated(Join(Lines(s)[..i]))
  {
    hide Lines, Join, Offset, Break, Cut;
    OffsetSplits(s, i);
    JoinLines(s[..Offset(s, i)]);
    JoinLines(s[Offset(s, i)..]);
  }

  lemma {:induction false} JoinLines(s: string)
    ensures Join(Lines(s)) == s
  {
    if s != "" {
      JoinLines(s[Cut(s)..]);
    }
  }

  // ----- marked lines -----

  /** No line of `s` starts with the marker. */
  ghost predicate Unmarked(s: string, marker: string) { NoneMarked(Lines(s), marker) }

  ghost predicate NoneMarked(lines: seq<string>, marker: string) {
    forall k :: 0 <= k < |lines| ==> !(marker <= lines[k])
  }

  lemma NoneMarkedConcat(a: seq<string>, b: seq<string>, marker: string)
    ensures NoneMarked(a + b, marker) <==> NoneMarked(a, marker) && NoneMarked(b, marker)
  {
    if NoneMarked(a + b, marker) {
      assert forall k :: 0 <= k < |a| ==> (a + b)[k] == a[k];
      assert forall k :: 0 <= k < |b| ==> (a + b)[|a| + k] == b[k];
    }
  }

  ghost predicate IsMarker(marker: string) {
    marker != "" && forall k :: 0 <= k < |marker| ==> !Break(marker[k])
  }

  /** Joining at a line end, or ending the last line, starts no marked line. */
  lemma {:induction false} UnmarkedConcat(a: string, b: string, marker: string)
    requires Unmarked(a, marker) && Unmarked(b, marker) && IsMarker(marker)
    requires Terminated(a) || b == "\n"
    ensures Unmarked(a + b, marker)
  {
    hide Lines, NoneMarked, Break;
    FirstLine(a, 0);
    if a == "" {
      assert a + b == b;
    } else if Closed(a, b) {
      LinesConcat(a, b);
      NoneMarkedConcat(Lines(a), Lines(b), marker);
    } else if Cut(a) < |a| {
      var n := Cut(a);
      CutConcat(a, b);
      hide Cut, Closed;
      FirstLine(a, 1);
      FirstLine(a + b, 0);
      FirstLine(a + b, 1);
      assert (a + b)[..n] == a[..n] && (a + b)[n..] == a[n..] + b;
      NoneMarkedConcat([a[..n]], Lines(a[n..]), marker);
      UnmarkedConcat(a[n..], b, marker);
      NoneMarkedConcat([a[..n]], Lines(a[n..] + b), marker);
    } else {
      UnmarkedLast(a, b, marker);
    }
  }

  lemma UnmarkedLast(a: string, b: string, marker: string)
    requires Unmarked(a, marker) && Unmarked(b, marker) && IsMarker(marker)
    requires a != "" && Cut(a) == |a| && b != "" && b[0] == '\n' && !Closed(a, b)
    ensures Unmarked(a + b, marker)
  {
    hide Lines, Cut, Break, IsMarker, Closed;
    LastLine(a, b);
    MarkerPrefix(a, marker);
    Sole(a);
    FirstBlank(b);
    NoneMarkedConcat(["\n"], Lines(b[1..]), marker);
    NoneMarkedConcat([a + "\n"], Lines(b[1..]), marker);
    assert Lines(a)[0] == a;
  }

  lemma Sole(a: string)
    requires a != "" && Cut(a) == |a|
    ensures Lines(a) == [a]
  {
    assert a[..|a|] == a && a[|a|..] == "";
  }

  lemma FirstBlank(b: string)
    requires b != "" && b[0] == '\n'
    ensures Lines(b) == ["\n"] + Lines(b[1..])
  {
    assert Cut(b) == 1 && b[..1] == "\n";
  }

  lemma MarkerPrefix(a: string, marker: string)
    requires IsMarker(marker)
    ensures marker <= a + "\n" <==> marker <= a
  {
    assert Break('\n') && (a + "\n")[|a|] == '\n';
    assert |marker| == |a| + 1 ==> marker[|a|] != (a + "\n")[|a|];
    if |marker| <= |a| {
      assert (a + "\n")[..|marker|] == a[..|marker|];
    }
  }

  lemma {:induction false} LastLine(a: string, b: string)
    requires a != "" && Cut(a) == |a| && b != "" && b[0] == '\n' && !Closed(a, b)
    ensures Lines(a + b) == [a + "\n"] + Lines(b[1..])
  {
    LastCut(a, b);
    assert (a + b)[..|a| + 1] == a + "\n" && (a + b)[|a| + 1..] == b[1..];
  }

  lemma {:induction false} LastCut(a: string, b: string)
    requires a != "" && Cut(a) == |a| && b != "" && b[0] == '\n' && !Closed(a, b)
    ensures Cut(a + b) == |a| + 1
  {
    if |a| > 1 {
      assert (a + b)[1..] == a[1..] + b;
      if !Break(a[0]) {
        LastCut(a[1..], b);
      }
    } else {
      assert (a + b)[1..] == b;
    }
  }

  // ----- the block -----

  const WORD := "LOCALSETUP_HEARTBEAT"

  function Begin(identity: string): string { "# BEGIN " + WORD + " target=" + identity }

  function End(identity: string): string { "# END " + WORD + " target=" + identity }

  /** A target's hexadecimal digest. */
  predicate IsIdentity(identity: string) { forall k :: 0 <= k < |identity| ==> identity[k] in "0123456789abcdef" }

  /** `s.rstrip(chars)`. */
  function RStrip(s: string, chars: string): (r: string)
    ensures r <= s
  {
    if s != "" && s[|s| - 1] in chars then RStrip(s[..|s| - 1], chars) else s
  }

  /** The text written for a fragment; an empty fragment writes none. */
  function Block(fragment: string, identity: string): string {
    if fragment == "" then ""
    else Begin(identity) + "\n" + RStrip(fragment, "\n") + "\n" + End(identity) + "\n"
  }

  /** The lines starting with a marker. */
  function Indices(lines: seq<string>, marker: string): (r: seq<nat>)
    ensures forall i :: i in r <==> 0 <= i < |lines| && marker <= lines[i]
    ensures forall i, j :: 0 <= i < j < |r| ==> r[i] < r[j]
  {
    if lines == [] then []
    else
      var n := |lines| - 1;
      var front := Indices(lines[..n], marker);
      assert forall i :: 0 <= i < |front| ==> front[i] in front;
      front + (if marker <= lines[n] then [n] else [])
  }

  /** What a crontab holds of the owner's block. */
  datatype Scan = Absent | Found(pre: string, block: string, post: string) | Ambiguous

  function ScanFor(content: string, identity: string): Scan {
    var lines := Lines(content);
    var starts, ends := Indices(lines, Begin(identity)), Indices(lines, End(identity));
    if starts == [] && ends == [] then Absent
    else if |starts| != 1 || |ends| != 1 || starts[0] >= ends[0] then Ambiguous
    else
      assert starts[0] in starts && ends[0] in ends;
      if RStrip(lines[starts[0]], "\r\n") != Begin(identity)
          || RStrip(lines[ends[0]], "\r\n") != End(identity) then Ambiguous
      else
        Found(Join(lines[..starts[0]]), Join(lines[starts[0]..ends[0] + 1]), Join(lines[ends[0] + 1..]))
  }

  /** `_append_block`. */
  function Append(content: string, block: string): string {
    (if content != "" && content[|content| - 1] !in "\n\r" then content + "\n" else content) + block
  }

  /** `_merge`: the desired text and the digest of the block it replaces. */
  function Merge(content: string, fragment: string, identity: string): Option<(string, Option<Digest>)> {
    match ScanFor(content, identity)
    case Absent => Some((if fragment == "" then content else Append(content, Block(fragment, identity)), None))
    case Found(pre, block, post) => Some((pre + Block(fragment, identity) + post, Some(Sha(block))))
    case Ambiguous => None
  }

  // ----- what the scan finds -----

  /** What `install_fragment` accepts; the marker word cannot occur inside. */
  predicate Plain(fragment: string) { !Contains(fragment, WORD) }

  ghost predicate Clear(s: string, identity: string) {
    Unmarked(s, Begin(identity)) && Unmarked(s, End(identity))
  }

  ghost predicate Printable(s: string) { forall k :: 0 <= k < |s| ==> !Break(s[k]) }

  lemma MarkerFacts(identity: string)
    requires IsIdentity(identity)
    ensures IsMarker(Begin(identity)) && Begin(identity)[0] == '#'
    ensures |Begin(identity)| >= 28 && Begin(identity)[8..28] == WORD
    ensures IsMarker(End(identity)) && End(identity)[0] == '#'
    ensures |End(identity)| >= 26 && End(identity)[6..26] == WORD
  {
    assert Printable("# BEGIN ") && Printable("# END ") && Printable(WORD) && Printable(" target=");
    assert Printable(identity) by {
      assert Printable("0123456789abcdef");
    }
    hide Break;
    var word, rest := WORD, " target=" + identity;
    assert |word| == 20;
    assert Begin(identity) == "# BEGIN " + word + rest && End(identity) == "# END " + word + rest;
  }

  lemma MarkersDiffer(identity: string)
    ensures !(Begin(identity) <= End(identity) + "\n") && !(End(identity) <= Begin(identity) + "\n")
  {
    var rest := WORD + " target=" + identity;
    assert Begin(identity) == "# BEGIN " + rest && End(identity) == "# END " + rest;
    hide Begin, End;
    assert Begin(identity)[2] == 'B' && End(identity)[2] == 'E';
  }

  /** Each line is the stretch of text between two offsets. */
  lemma {:induction false} LineIsSlice(s: string, k: nat) returns (p: nat, q: nat)
    requires k < |Lines(s)|
    ensures p <= q <= |s| && Lines(s)[k] == s[p..q]
  {
    if k == 0 {
      p, q := 0, Cut(s);
    } else {
      var n := Cut(s);
      var i, j := LineIsSlice(s[n..], k - 1);
      p, q := n + i, n + j;
      assert Lines(s)[k] == Lines(s[n..])[k - 1] == s[n..][i..j] == s[p..q];
    }
  }

  lemma MarkedContains(body: string, p: nat, q: nat, marker: string, at: nat)
    requires p <= q <= |body + "\n"| && marker <= (body + "\n")[p..q]
    requires at + 20 <= |marker| && marker[at..at + 20] == WORD
    ensures Contains(body, WORD)
  {
    var text, i := body + "\n", p + at;
    assert text[i..i + 20] == text[p..q][at..at + 20] == marker[at..at + 20];
    assert text[i + 19] == WORD[19] == 'T';
    assert body[i..i + 20] == text[i..i + 20];
    assert ContainsAt(body, WORD, i);
  }

  /** A text without the marker word has no marked line, also once its last line is ended. */
  lemma PlainUnmarked(fragment: string, body: string, marker: string, at: nat)
    requires Plain(fragment) && body <= fragment
    requires at + 20 <= |marker| && marker[at..at + 20] == WORD
    ensures Unmarked(body + "\n", marker)
  {
    hide Lines;
    forall i
      ensures !ContainsAt(body, WORD, i)
    {
      assert ContainsAt(body, WORD, i) ==> ContainsAt(fragment, WORD, i);
    }
    var text := body + "\n";
    forall k | 0 <= k < |Lines(text)|
      ensures !(marker <= Lines(text)[k])
    {
      var p, q := LineIsSlice(text, k);
      if marker <= text[p..q] {
        MarkedContains(body, p, q, marker, at);
      }
    }
  }

  lemma MarkerLine(marker: string)
    requires IsMarker(marker)
    ensures Lines(marker + "\n") == [marker + "\n"]
    ensures RStrip(marker + "\n", "\r\n") == marker && RStrip(marker, "\r\n") == marker
  {
    MarkerCut(marker);
    Sole(marker + "\n");
    assert (marker + "\n")[..|marker|] == marker;
    assert Break('\r') && Break('\n');
  }

  lemma {:induction false} MarkerCut(marker: string)
    requires forall k :: 0 <= k < |marker| ==> !Break(marker[k])
    ensures Cut(marker + "\n") == |marker| + 1
  {
    assert Break('\r');
    if marker != "" {
      assert (marker + "\n")[1..] == marker[1..] + "\n";
      MarkerCut(marker[1..]);
    }
  }

  /** The block opens with the begin line, closes with the end line, and marks nothing between. */
  lemma BlockLines(fragment: string, identity: string)
    requires Plain(fragment) && fragment != "" && IsIdentity(identity)
    ensures var body := RStrip(fragment, "\n") + "\n";
            && Lines(Block(fragment, identity)) == [Begin(identity) + "\n"] + Lines(body) + [End(identity) + "\n"]
            && Clear(body, identity)
  {
    hide Lines, Closed, RStrip, Unmarked, Begin, End, IsMarker, Plain;
    MarkerFacts(identity);
    var inner := RStrip(fragment, "\n");
    var body, first, last := inner + "\n", Begin(identity) + "\n", End(identity) + "\n";
    PlainUnmarked(fragment, inner, Begin(identity), 8);
    PlainUnmarked(fragment, inner, End(identity), 6);
    MarkerLine(Begin(identity));
    MarkerLine(End(identity));
    assert Block(fragment, identity) == first + (body + last);
    EndsClosed(first, body + last);
    EndsClosed(body, last);
    LinesConcat(first, body + last);
    LinesConcat(body, last);
  }

  lemma EndsClosed(a: string, b: string)
    requires a != "" && a[|a| - 1] == '\n'
    ensures Closed(a, b)
  {
  }

  /** A block between unmarked texts is found, whole, and nothing else. */
  lemma ScanFinds(pre: string, fragment: string, post: string, identity: string)
    requires Plain(fragment) && fragment != "" && IsIdentity(identity)
    requires Terminated(pre) && Clear(pre, identity) && Clear(post, identity)
    ensures ScanFor(pre + Block(fragment, identity) + post, identity) == Found(pre, Block(fragment, identity), post)
  {
    hide Lines, Begin, End, Block, RStrip, Break, Indices, Join, Plain, IsMarker, IsIdentity, ScanFor, NoneMarked;
    var block, begin, end := Block(fragment, identity), Begin(identity), End(identity);
    BlockLines(fragment, identity);
    MarkerFacts(identity);
    MarkersDiffer(identity);
    MarkerLine(begin);
    MarkerLine(end);
    BlockEnds(fragment, identity, pre, post);
    ThreeParts(pre, block, post);
    var body := Lines(RStrip(fragment, "\n") + "\n");
    BlockStands(Lines(pre), body, Lines(post), begin, end);
    ScanOfLines(pre + block + post, identity, |Lines(pre)|, |Lines(pre)| + |body| + 1);
  }

  /** Where the two markers stand, and what lies before, between and behind them. */
  lemma BlockStands(pre: seq<string>, body: seq<string>, post: seq<string>, begin: string, end: string)
    requires !(begin <= end + "\n") && !(end <= begin + "\n")
    requires NoneMarked(pre, begin) && NoneMarked(body, begin) && NoneMarked(post, begin)
    requires NoneMarked(pre, end) && NoneMarked(body, end) && NoneMarked(post, end)
    ensures var block := [begin + "\n"] + body + [end + "\n"];
            var lines, i := pre + (block + post), |pre| + |body| + 1;
            && Indices(lines, begin) == [|pre|] && Indices(lines, end) == [i]
            && lines[|pre|] == begin + "\n" && lines[i] == end + "\n"
            && lines[..|pre|] == pre && lines[|pre|..i + 1] == block && lines[i + 1..] == post
  {
    hide Indices, NoneMarked;
    var block := [begin + "\n"] + body + [end + "\n"];
    Assemble(pre, body, post, begin, end);
    Slices(pre, block, post);
    assert block[0] == begin + "\n" && block[|body| + 1] == end + "\n";
  }

  lemma ThreeParts(pre: string, block: string, post: string)
    requires Closed(pre, block + post) && Closed(block, post)
    ensures Lines(pre + block + post) == Lines(pre) + (Lines(block) + Lines(post))
    ensures Join(Lines(pre)) == pre && Join(Lines(block)) == block && Join(Lines(post)) == post
  {
    hide Lines, Join, Closed;
    assert pre + block + post == pre + (block + post);
    LinesConcat(pre, block + post);
    LinesConcat(block, post);
    JoinLines(pre);
    JoinLines(block);
    JoinLines(post);
  }

  lemma Slices(pre: seq<string>, block: seq<string>, post: seq<string>)
    ensures var lines := pre + (block + post);
            && lines[..|pre|] == pre && lines[|pre|..|pre| + |block|] == block && lines[|pre| + |block|..] == post
            && forall k :: 0 <= k < |block| ==> lines[|pre| + k] == block[k]
  {
  }

  lemma BlockEnds(fragment: string, identity: string, pre: string, post: string)
    requires fragment != "" && IsIdentity(identity) && Terminated(pre)
    ensures var block := Block(fragment, identity);
            block != "" && Closed(pre, block + post) && Closed(block, post)
  {
    MarkerFacts(identity);
    hide Begin, End, RStrip, IsMarker;
    var block := Block(fragment, identity);
    assert block[0] == '#' && block[|block| - 1] == '\n';
    EndsClosed(block, post);
    assert (block + post)[0] == '#';
  }

  lemma Assemble(pre: seq<string>, body: seq<string>, post: seq<string>, begin: string, end: string)
    requires !(begin <= end + "\n") && !(end <= begin + "\n")
    requires NoneMarked(pre, begin) && NoneMarked(body, begin) && NoneMarked(post, begin)
    requires NoneMarked(pre, end) && NoneMarked(body, end) && NoneMarked(post, end)
    ensures var lines := pre + ([begin + "\n"] + body + [end + "\n"] + post);
            && Indices(lines, begin) == [|pre|] && Indices(lines, end) == [|pre| + |body| + 1]
  {
    hide Indices;
    var lines := pre + ([begin + "\n"] + body + [end + "\n"] + post);
    var p, q := |pre|, |pre| + |body| + 1;
    assert lines[p] == begin + "\n" && lines[q] == end + "\n";
    assert begin <= lines[p] && end <= lines[q];
    forall k | 0 <= k < |lines| && k != p && k != q
      ensures !(begin <= lines[k]) && !(end <= lines[k])
    {
      assert lines[k] == if k < p then pre[k] else if k < q then body[k - p - 1] else post[k - q - 1];
    }
    Alone(lines, begin, p);
    Alone(lines, end, q);
  }

  lemma NoIndex(lines: seq<string>, marker: string)
    ensures Indices(lines, marker) == [] <==> forall k :: 0 <= k < |lines| ==> !(marker <= lines[k])
  {
    var r := Indices(lines, marker);
    if r != [] {
      assert r[0] in r;
    }
  }

  lemma OnlyIndex(lines: seq<string>, marker: string)
    requires |Indices(lines, marker)| == 1
    ensures var i := Indices(lines, marker)[0];
            i < |lines| && marker <= lines[i] && forall k :: 0 <= k < |lines| && k != i ==> !(marker <= lines[k])
  {
    var r := Indices(lines, marker);
    assert r[0] in r;
    forall k | 0 <= k < |lines| && marker <= lines[k]
      ensures k == r[0]
    {
      assert k in r;
    }
  }

  /** What is found splits the text at line ends, and the rest holds no marker. */
  lemma ScanShape(content: string, identity: string)
    ensures ScanFor(content, identity).Absent? <==> Clear(content, identity)
    ensures ScanFor(content, identity).Found? ==>
              var found := ScanFor(content, identity);
              && content == found.pre + found.block + found.post && Terminated(found.pre)
              && Clear(found.pre, identity) && Clear(found.post, identity)
  {
    hide Lines, Indices, Begin, End, Join, Terminated, RStrip;
    var lines := Lines(content);
    NoIndex(lines, Begin(identity));
    NoIndex(lines, End(identity));
    var starts, ends := Indices(lines, Begin(identity)), Indices(lines, End(identity));
    if |starts| == 1 && |ends| == 1 && starts[0] < ends[0] {
      var first, last := starts[0], ends[0] + 1;
      OnlyIndex(lines, Begin(identity));
      OnlyIndex(lines, End(identity));
      SplitLines(content, first);
      SplitTwice(content, first, last);
    }
  }

  /** The line is the marker alone, with its line end. */
  ghost predicate Bare(line: string, marker: string) {
    marker <= line && forall k :: |marker| <= k < |line| ==> line[k] == '\r' || line[k] == '\n'
  }

  /** One line only starts with each marker, both are bare, and they stand in order. */
  ghost predicate Paired(lines: seq<string>, identity: string, first: int, last: int) {
    && 0 <= first < last < |lines| && Bare(lines[first], Begin(identity)) && Bare(lines[last], End(identity))
    && (forall k :: 0 <= k < |lines| && Begin(identity) <= lines[k] ==> k == first)
    && forall k :: 0 <= k < |lines| && End(identity) <= lines[k] ==> k == last
  }

  /** A block is found exactly between one bare pair of markers, it is everything from the one to the other, and
      markers that stand otherwise are ambiguous. */
  lemma ScanExact(content: string, identity: string)
    requires IsIdentity(identity)
    ensures ScanFor(content, identity).Found? <==> exists i, j :: Paired(Lines(content), identity, i, j)
    ensures forall i, j :: Paired(Lines(content), identity, i, j) ==>
              ScanFor(content, identity)
              == Found(Join(Lines(content)[..i]), Join(Lines(content)[i..j + 1]), Join(Lines(content)[j + 1..]))
  {
    hide Lines, Join, ScanFor, Paired, IsIdentity;
    forall i, j | Paired(Lines(content), identity, i, j)
      ensures 0 <= i < j < |Lines(content)|
      ensures ScanFor(content, identity)
           == Found(Join(Lines(content)[..i]), Join(Lines(content)[i..j + 1]), Join(Lines(content)[j + 1..]))
    {
      ScanOfPair(content, identity, i, j);
    }
    if ScanFor(content, identity).Found? {
      var i, j := PairOfScan(content, identity);
    }
  }

  lemma ScanOfPair(content: string, identity: string, i: int, j: int)
    requires IsIdentity(identity) && Paired(Lines(content), identity, i, j)
    ensures 0 <= i < j < |Lines(content)|
    ensures ScanFor(content, identity)
         == Found(Join(Lines(content)[..i]), Join(Lines(content)[i..j + 1]), Join(Lines(content)[j + 1..]))
  {
    MarkerFacts(identity);
    hide Lines, Join, Begin, End, RStrip, IsIdentity, Indices;
    Alone(Lines(content), Begin(identity), i);
    Alone(Lines(content), End(identity), j);
    BareIsStripped(Lines(content)[i], Begin(identity));
    BareIsStripped(Lines(content)[j], End(identity));
    ScanOfLines(content, identity, i, j);
  }

  lemma ScanOfLines(content: string, identity: string, i: nat, j: nat)
    requires i < j < |Lines(content)|
    requires Indices(Lines(content), Begin(identity)) == [i] && Indices(Lines(content), End(identity)) == [j]
    requires RStrip(Lines(content)[i], "\r\n") == Begin(identity) && RStrip(Lines(content)[j], "\r\n") == End(identity)
    ensures ScanFor(content, identity)
         == Found(Join(Lines(content)[..i]), Join(Lines(content)[i..j + 1]), Join(Lines(content)[j + 1..]))
  {
    hide Lines, Join, Begin, End, RStrip, Indices;
  }

  lemma PairOfScan(content: string, identity: string) returns (i: nat, j: nat)
    requires IsIdentity(identity) && ScanFor(content, identity).Found?
    ensures Paired(Lines(content), identity, i, j)
  {
    MarkerFacts(identity);
    hide Lines, Join, Begin, End, RStrip, IsIdentity;
    var lines := Lines(content);
    var starts, ends := Indices(lines, Begin(identity)), Indices(lines, End(identity));
    assert starts[0] in starts && ends[0] in ends;
    i, j := starts[0], ends[0];
    BareIsStripped(lines[i], Begin(identity));
    BareIsStripped(lines[j], End(identity));
    assert forall k :: k in starts ==> k == i;
    assert forall k :: k in ends ==> k == j;
  }

  lemma Alone(lines: seq<string>, marker: string, i: nat)
    requires i < |lines| && marker <= lines[i] && forall k :: 0 <= k < |lines| && marker <= lines[k] ==> k == i
    ensures Indices(lines, marker) == [i]
  {
    var found := Indices(lines, marker);
    assert i in found;
    FirstTwo(found);
    assert found[0] in found;
  }

  lemma FirstTwo(found: seq<nat>)
    requires forall i, j :: 0 <= i < j < |found| ==> found[i] < found[j]
    ensures |found| > 1 ==> exists a, b :: a in found && b in found && a != b
  {
    if |found| > 1 {
      assert found[0] in found && found[1] in found;
    }
  }

  /** A line that starts with a marker strips to it exactly when it is bare. */
  lemma {:induction false} BareIsStripped(line: string, marker: string)
    requires marker <= line && marker != "" && !Break(marker[|marker| - 1])
    ensures RStrip(line, "\r\n") == marker <==> Bare(line, marker)
  {
    var n := |line| - 1;
    if line[n] in "\r\n" {
      assert |marker| < |line| by {
        assert marker[|marker| - 1] == line[|marker| - 1];
      }
      BareIsStripped(line[..n], marker);
    } else if |line| > |marker| {
      assert line[n] != '\r' && line[n] != '\n';
    }
  }

  lemma SplitTwice(content: string, first: nat, last: nat)
    requires first <= last <= |Lines(content)|
    ensures var lines := Lines(content);
            && content == Join(lines[..first]) + Join(lines[first..last]) + Join(lines[last..])
            && Lines(Join(lines[last..])) == lines[last..]
  {
    hide Lines, Join, Terminated;
    SplitLines(content, first);
    SplitLines(content, last);
    SplitRest(Join(Lines(content)[first..]), Lines(content), first, last);
    Regroup(Join(Lines(content)[..first]), Join(Lines(content)[first..last]), Join(Lines(content)[last..]));
  }

  lemma SplitRest(rest: string, lines: seq<string>, first: nat, last: nat)
    requires first <= last <= |lines| && Lines(rest) == lines[first..]
    ensures rest == Join(lines[first..last]) + Join(lines[last..])
  {
    hide Lines, Join, Terminated;
    SplitLines(rest, last - first);
    MiddleLines(lines, first, last);
  }

  lemma Regroup(a: string, b: string, c: string)
    ensures a + (b + c) == a + b + c
  {
  }

  lemma MiddleLines(lines: seq<string>, first: nat, last: nat)
    requires first <= last <= |lines|
    ensures lines[first..][..last - first] == lines[first..last] && lines[first..][last - first..] == lines[last..]
  {
  }

  // ----- merging -----

  /** The crontab text outside the owner's block. */
  function Outside(content: string, identity: string): Option<(string, string)> {
    match ScanFor(content, identity)
    case Absent => Some((Append(content, ""), ""))
    case Found(pre, _, post) => Some((pre, post))
    case Ambiguous => None
  }

  /** Ending the last line keeps a text clear and makes it a place to append at. */
  lemma AppendClear(content: string, identity: string)
    requires Clear(content, identity) && IsIdentity(identity)
    ensures Clear(Append(content, ""), identity) && Terminated(Append(content, ""))
  {
    MarkerFacts(identity);
    hide Begin, End, Lines;
    assert content + "" == content && content + "\n" + "" == content + "\n";
    if content != "" && content[|content| - 1] !in "\n\r" {
      Newline(Begin(identity));
      Newline(End(identity));
      UnmarkedConcat(content, "\n", Begin(identity));
      UnmarkedConcat(content, "\n", End(identity));
    }
  }

  lemma Newline(marker: string)
    requires IsMarker(marker)
    ensures Unmarked("\n", marker)
  {
    Sole("\n");
    assert Break('\n') && marker[0] != '\n';
  }

  /**
   * The merged text holds exactly the block just written, or none when the
   * fragment is empty, between the untouched texts outside it; merging an
   * empty fragment into it gives those texts back alone.
   */
  lemma MergeShape(content: string, fragment: string, identity: string)
    requires Plain(fragment) && IsIdentity(identity) && Merge(content, fragment, identity).Some?
    ensures var (pre, post) := Outside(content, identity).value;
            var desired := Merge(content, fragment, identity).value.0;
            if fragment != "" then
              && desired == pre + Block(fragment, identity) + post
              && ScanFor(desired, identity) == Found(pre, Block(fragment, identity), post)
              && Merge(desired, "", identity) == Some((pre + post, Some(Sha(Block(fragment, identity)))))
            else
              && ScanFor(desired, identity) == Absent
              && desired == (if ScanFor(content, identity).Absent? then content else pre + post)
  {
    hide Lines, Begin, End, ScanFor, Terminated, RStrip, IsIdentity, Block;
    ScanShape(content, identity);
    var (pre, post) := Outside(content, identity).value;
    var desired := Merge(content, fragment, identity).value.0;
    if ScanFor(content, identity).Absent? {
      AppendClear(content, identity);
      EmptyClear(identity);
    }
    assert Terminated(pre) && Clear(pre, identity) && Clear(post, identity);
    if fragment != "" {
      assert desired == pre + Block(fragment, identity) + post;
      ScanFinds(pre, fragment, post, identity);
      NoBlock(identity, pre, post);
    } else if !ScanFor(content, identity).Absent? {
      MarkerFacts(identity);
      NoBlock(identity, pre, post);
      UnmarkedConcat(pre, post, Begin(identity));
      UnmarkedConcat(pre, post, End(identity));
      assert desired == pre + post;
      ScanShape(pre + post, identity);
    }
  }

  lemma NoBlock(identity: string, pre: string, post: string)
    ensures Block("", identity) == "" && pre + Block("", identity) + post == pre + post
  {
    assert pre + "" == pre;
  }

  lemma EmptyClear(identity: string)
    ensures Clear("", identity)
  {
  }

  /** The texts are all of the crontab but the replaced block, and, where there was none, its last line ended. */
  ghost predicate Around(content: string, identity: string, pre: string, post: string) {
    match ScanFor(content, identity)
    case Absent =>
      post == "" && pre == content + if content == "" || content[|content| - 1] in "\n\r" then "" else "\n"
    case Found(_, block, _) => content == pre + block + post
    case Ambiguous => false
  }

  /** The text between the two marker lines is the fragment without the newlines it ends in. */
  ghost predicate Framed(fragment: string, identity: string, text: string) {
    if fragment == "" then text == ""
    else
      exists body ::
        && body <= fragment && (body != "" ==> body[|body| - 1] != '\n')
        && (forall c :: c in fragment[|body|..] ==> c == '\n')
        && text == "# BEGIN " + WORD + " target=" + identity + "\n" + body + "\n"
                   + ("# END " + WORD + " target=" + identity) + "\n"
  }

  lemma {:induction false} RStripMeans(s: string)
    ensures var body := RStrip(s, "\n");
            && body <= s && (body != "" ==> body[|body| - 1] != '\n') && forall c :: c in s[|body|..] ==> c == '\n'
  {
    if s != "" && s[|s| - 1] in "\n" {
      RStripMeans(s[..|s| - 1]);
      var body := RStrip(s, "\n");
      assert s[|body|..] == s[..|s| - 1][|body|..] + [s[|s| - 1]];
    }
  }

  lemma OutsideMeans(content: string, identity: string)
    requires Outside(content, identity).Some?
    ensures var (pre, post) := Outside(content, identity).value; Around(content, identity, pre, post)
  {
    hide ScanFor;
    ScanShape(content, identity);
  }

  lemma BlockMeans(fragment: string, identity: string)
    ensures Framed(fragment, identity, Block(fragment, identity))
  {
    RStripMeans(fragment);
    hide RStrip;
    if fragment != "" {
      var body := RStrip(fragment, "\n");
      assert Block(fragment, identity) == "# BEGIN " + WORD + " target=" + identity + "\n" + body + "\n"
                                          + ("# END " + WORD + " target=" + identity) + "\n";
    }
  }

  /** A successful merge puts the fragment, framed by its markers, between what was there around the old block. */
  lemma MergeMeans(content: string, fragment: string, identity: string)
    requires Plain(fragment) && IsIdentity(identity) && Merge(content, fragment, identity).Some?
    ensures Outside(content, identity).Some?
    ensures var (pre, post) := Outside(content, identity).value;
            && Around(content, identity, pre, post) && Framed(fragment, identity, Block(fragment, identity))
            && Merge(content, fragment, identity).value.0
               == if fragment == "" && ScanFor(content, identity).Absent? then content
                  else pre + Block(fragment, identity) + post
  {
    MergeShape(content, fragment, identity);
    OutsideMeans(content, identity);
    BlockMeans(fragment, identity);
    hide Lines, ScanFor, RStrip, Plain, IsIdentity, Framed, Around;
    assert fragment == "" ==> Block(fragment, identity) == "";
  }

  /** Merging brings in no character but the fragment's and the markers'. */
  lemma MergeAddsOnly(content: string, fragment: string, identity: string, c: char)
    requires Plain(fragment) && IsIdentity(identity) && Merge(content, fragment, identity).Some?
    requires c !in content && c !in fragment && c !in Begin(identity) && c !in End(identity) && c != '\n'
    ensures c !in Merge(content, fragment, identity).value.0
  {
    MergeMeans(content, fragment, identity);
    hide ScanFor, Plain, IsIdentity, Begin, End, RStrip, Merge;
    var (pre, post) := Outside(content, identity).value;
    assert RStrip(fragment, "\n") <= fragment;
    assert ScanFor(content, identity).Found? ==> c !in pre && c !in post;
  }

  /** Merging the same fragment twice changes nothing the second time. */
  lemma MergeIdempotent(content: string, fragment: string, identity: string)
    requires Plain(fragment) && IsIdentity(identity) && Merge(content, fragment, identity).Some?
    ensures var desired := Merge(content, fragment, identity).value.0;
            Merge(desired, fragment, identity).Some? && Merge(desired, fragment, identity).value.0 == desired
  {
    hide ScanFor, Block, Append, Plain, IsIdentity;
    MergeShape(content, fragment, identity);
  }
}
