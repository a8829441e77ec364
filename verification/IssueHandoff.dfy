/** The handoff block inside an issue body (ls/core/github_repo/issue_writer.py). */
module IssueHandoff {
  import opened Wrappers
  import opened Text

  /** `json.loads` of a handoff payload: its fingerprint, if it has one. */
  type Decoder = string -> Option<string>

  const OPENER := "```qc.issue-handoff.v1\n"
  const CLOSER := "\n```"

  /** One feedback request: the rendered draft, the issue fields, and the JSON payload of its own block. */
  datatype Evidence = Evidence(draft: string, title: string, labels: seq<string>, fingerprint: string, payload: string)

  /** `issue_body`. */
  function IssueBody(e: Evidence): string { e.draft + "\n\n" + OPENER + e.payload + CLOSER + "\n" }

  /** The opening line as the reader's pattern has it: its two dots match any character at all. */
  predicate Opens(s: string) {
    |s| == 23 && s[..5] == "```qc" && s[6..19] == "issue-handoff" && s[20..] == "v1\n"
  }

  predicate OpenerAt(text: string, p: int) { 0 <= p <= |text| - 23 && Opens(text[p..p + 23]) }

  /** The first place at or after `i` where an opening line starts. */
  function FindOpener(text: string, i: nat): (r: Option<nat>)
    ensures r.Some? ==> r.value >= i && OpenerAt(text, r.value)
    ensures r.Some? ==> forall k {:trigger OpenerAt(text, k)} :: i <= k < r.value ==> !OpenerAt(text, k)
    ensures r.None? ==> forall k {:trigger OpenerAt(text, k)} :: i <= k ==> !OpenerAt(text, k)
    decreases |text| - i
  {
    if i > |text| then None
    else if OpenerAt(text, i) then Some(i)
    else FindOpener(text, i + 1)
  }

  /** `extract_handoff`: the first block of a body, whoever wrote it. */
  function Extract(decode: Decoder, body: string): Option<string> {
    match FindOpener(body, 0)
    case None => None
    case Some(p) =>
      match Find(body, CLOSER, p + 23)
      case None => None
      case Some(q) => decode(body[p + 23..q])
  }

  /** The JSON encoder's side: the payload decodes to its fingerprint and cannot close its own block. */
  ghost predicate Encoded(decode: Decoder, e: Evidence) {
    decode(e.payload) == Some(e.fingerprint) && !Contains(e.payload, CLOSER)
  }

  /** The payload of a block that starts inside the draft; the draft's end closes it at the latest. */
  function Embedded(draft: string): Option<string> {
    match FindOpener(draft + "\n", 0)
    case None => None
    case Some(p) =>
      match Find(draft + "\n" + CLOSER, CLOSER, p + 23)
      case None => None
      case Some(q) => Some((draft + "\n" + CLOSER)[p + 23..q])
  }

  /** A block quoted in the draft, if there is one, names the request's own fingerprint. */
  predicate Faithful(decode: Decoder, e: Evidence) {
    Embedded(e.draft).Some? ==> decode(Embedded(e.draft).value) == Some(e.fingerprint)
  }

  // ----- occurrences -----

  lemma PrefixAt(text: string, more: string, word: string, p: nat)
    requires p + |word| <= |text|
    ensures ContainsAt(text + more, word, p) == ContainsAt(text, word, p)
  {
    assert (text + more)[p..p + |word|] == text[p..p + |word|];
  }

  lemma OpenerPrefix(text: string, more: string, p: nat)
    requires p + 23 <= |text|
    ensures OpenerAt(text + more, p) == OpenerAt(text, p)
  {
    assert (text + more)[p..p + 23] == text[p..p + 23];
  }

  lemma OpenerShift(front: string, text: string, p: nat)
    ensures OpenerAt(front + text, |front| + p) == OpenerAt(text, p)
  {
    assert p + 23 <= |text| ==> (front + text)[|front| + p..|front| + p + 23] == text[p..p + 23];
  }

  /** What is found first in a text is found first whatever follows the text. */
  lemma FindInPrefix(text: string, more: string, word: string, i: nat)
    requires Find(text, word, i).Some?
    ensures Find(text + more, word, i) == Find(text, word, i)
  {
    var p := Find(text, word, i).value;
    forall k | 0 <= k <= p
      ensures ContainsAt(text + more, word, k) == ContainsAt(text, word, k)
    {
      PrefixAt(text, more, word, k);
    }
  }

  lemma FindOpenerInPrefix(text: string, more: string)
    requires FindOpener(text, 0).Some?
    ensures FindOpener(text + more, 0) == FindOpener(text, 0)
  {
    var p := FindOpener(text, 0).value;
    forall k | 0 <= k <= p
      ensures OpenerAt(text + more, k) == OpenerAt(text, k)
    {
      OpenerPrefix(text, more, k);
    }
  }

  lemma FirstFound(text: string, word: string, i: nat, p: nat)
    requires i <= p && ContainsAt(text, word, p)
    requires forall k {:trigger ContainsAt(text, word, k)} :: i <= k < p ==> !ContainsAt(text, word, k)
    ensures Find(text, word, i) == Some(p)
  {
  }

  lemma FirstOpener(text: string, p: nat)
    requires OpenerAt(text, p) && forall k: nat {:trigger OpenerAt(text, k)} :: k < p ==> !OpenerAt(text, k)
    ensures FindOpener(text, 0) == Some(p)
  {
  }

  lemma Mismatch(text: string, word: string, p: nat, k: nat)
    requires k < |word| && p + k < |text| && text[p + k] != word[k]
    ensures !ContainsAt(text, word, p)
  {
    assert p + |word| <= |text| ==> text[p..p + |word|][k] == text[p + k];
  }

  /** The fixed characters of an opening line: three backticks first, then no newline before the last character
      but at the dots. */
  lemma OpenerLetters(text: string, p: nat)
    requires OpenerAt(text, p)
    ensures text[p] == text[p + 1] == text[p + 2] == '`' && text[p + 22] == '\n'
    ensures forall j :: p <= j < p + 22 && j != p + 5 && j != p + 19 ==> text[j] != '\n'
  {
    var s := text[p..p + 23];
    OpensLetters(s);
    assert s[0] == text[p] && s[1] == text[p + 1] && s[2] == text[p + 2] && s[22] == text[p + 22];
    assert forall j :: p <= j < p + 23 ==> text[j] == s[j - p];
  }

  lemma OpensLetters(s: string)
    requires Opens(s)
    ensures s[0] == s[1] == s[2] == '`' && s[22] == '\n'
    ensures forall k :: 0 <= k < 22 && k != 5 && k != 19 ==> s[k] != '\n'
  {
    var a, b, c := s[..5], s[6..19], s[20..];
    assert forall k :: 0 <= k < 5 ==> s[k] == a[k] != '\n';
    assert forall k :: 0 <= k < 13 ==> b[k] != '\n';
    assert forall k :: 6 <= k < 19 ==> s[k] == b[k - 6];
    assert s[20] == c[0] && s[21] == c[1] && s[22] == c[2];
  }

  lemma OwnLineOpens(front: string, tail: string)
    ensures OpenerAt(front + (OPENER + tail), |front|)
  {
    var s := (front + (OPENER + tail))[|front|..|front| + 23];
    assert |OPENER| == 23 && s == OPENER;
    assert OPENER[..5] == "```qc" && OPENER[6..19] == "issue-handoff" && OPENER[20..] == "v1\n";
  }

  /** Of the blank line after a draft at most the first newline can belong to an opening line. */
  lemma NoOpenerStraddles(draft: string, rest: string, p: nat)
    requires |draft| + 1 < p + 23 && p < |draft| + 2
    ensures !OpenerAt(draft + "\n\n" + rest, p)
  {
    var whole := draft + "\n\n" + rest;
    assert whole[|draft|] == '\n' && whole[|draft| + 1] == '\n';
    if OpenerAt(whole, p) {
      OpenerLetters(whole, p);
      assert false;
    }
  }

  /** A closer starts with its only newline, so none straddles the end of a payload. */
  lemma NoCloserStraddles(payload: string, rest: string, p: nat)
    requires p < |payload| < p + |CLOSER|
    ensures !ContainsAt(payload + (CLOSER + rest), CLOSER, p)
  {
    assert |CLOSER| == 4 && CLOSER[0] == '\n' && forall k :: 1 <= k < 4 ==> CLOSER[k] != '\n';
    Mismatch(payload + (CLOSER + rest), CLOSER, p, |payload| - p);
  }

  // ----- reading a published body back -----

  /** What readers find in a body: the block quoted in the draft if there is one, else the request's own. */
  lemma ExtractBody(decode: Decoder, e: Evidence)
    requires Encoded(decode, e)
    ensures Extract(decode, IssueBody(e))
         == match Embedded(e.draft) case None => Some(e.fingerprint) case Some(quoted) => decode(quoted)
  {
    hide Extract, Embedded, Encoded, IssueBody;
    match FindOpener(e.draft + "\n", 0)
    case Some(p) => ExtractQuoted(decode, e);
    case None => ExtractOwn(decode, e);
  }

  /** A block whose opening line lies in `line` is cut out of `line + closer` alone. */
  lemma BlockInPrefix(line: string, closer: string, after: string)
    requires FindOpener(line, 0).Some?
    ensures var start := FindOpener(line, 0).value + 23;
            && Find(line + closer, closer, start).Some?
            && var q := Find(line + closer, closer, start).value;
               && FindOpener(line + closer + after, 0) == FindOpener(line, 0)
               && Find(line + closer + after, closer, start) == Some(q)
               && (line + closer + after)[start..q] == (line + closer)[start..q]
  {
    hide Find, ContainsAt, FindOpener, Opens;
    var start, prefix := FindOpener(line, 0).value + 23, line + closer;
    EndsWith(line, closer);
    FindSome(prefix, closer, start, |line|);
    assert line + (closer + after) == prefix + after;
    FindOpenerInPrefix(line, closer + after);
    FindInPrefix(prefix, after, closer, start);
    var q := Find(prefix, closer, start).value;
    FoundWithin(prefix, closer, start);
    PrefixSlice(prefix, after, start, q);
  }

  lemma FoundWithin(text: string, word: string, i: nat)
    requires Find(text, word, i).Some?
    ensures i <= Find(text, word, i).value <= |text| - |word|
  {
  }

  lemma EndsWith(line: string, word: string)
    ensures ContainsAt(line + word, word, |line|)
  {
  }

  lemma FindSome(text: string, word: string, i: nat, p: nat)
    requires i <= p && ContainsAt(text, word, p)
    ensures Find(text, word, i).Some? && Find(text, word, i).value <= p
  {
  }

  lemma PrefixSlice(a: string, b: string, i: nat, j: nat)
    requires i <= j <= |a|
    ensures (a + b)[i..j] == a[i..j]
  {
  }

  lemma BodySplits(e: Evidence) returns (after: string)
    ensures IssueBody(e) == e.draft + "\n" + CLOSER + after
  {
    after := OPENER[3..] + e.payload + CLOSER + "\n";
    assert OPENER == "```" + OPENER[3..] && CLOSER == "\n" + "```";
  }

  lemma ExtractQuoted(decode: Decoder, e: Evidence)
    requires FindOpener(e.draft + "\n", 0).Some?
    ensures Embedded(e.draft).Some? && Extract(decode, IssueBody(e)) == decode(Embedded(e.draft).value)
  {
    hide IssueBody, Find, FindOpener, Opens;
    var after := BodySplits(e);
    BlockInPrefix(e.draft + "\n", CLOSER, after);
  }

  lemma ExtractOwn(decode: Decoder, e: Evidence)
    requires Encoded(decode, e) && FindOpener(e.draft + "\n", 0) == None
    ensures Embedded(e.draft).None? && Extract(decode, IssueBody(e)) == Some(e.fingerprint)
  {
    hide Find, Contains, FindOpener, Opens;
    var opener := OPENER;
    var front := e.draft + "\n\n" + opener;
    var tail := e.payload + (CLOSER + "\n");
    OwnOpener(e.draft, tail);
    OwnCloser(e.payload, front);
    Reassociate(e.draft + "\n\n" + opener, e.payload, CLOSER, "\n");
    Middle(front, e.payload, CLOSER + "\n");
  }

  lemma Reassociate(a: string, b: string, c: string, d: string)
    ensures a + b + c + d == a + (b + (c + d))
  {
  }

  lemma Middle(a: string, b: string, c: string)
    ensures (a + (b + c))[|a|..|a| + |b|] == b
  {
  }

  lemma OwnOpener(draft: string, tail: string)
    requires FindOpener(draft + "\n", 0) == None
    ensures FindOpener(draft + "\n\n" + OPENER + tail, 0) == Some(|draft| + 2)
  {
    hide Opens, FindOpener, OpenerAt;
    var rest := OPENER + tail;
    var body := draft + "\n\n" + rest;
    assert draft + "\n\n" + OPENER + tail == body;
    OwnLineOpens(draft + "\n\n", tail);
    forall k: nat | k < |draft| + 2
      ensures !OpenerAt(body, k)
    {
      NoEarlierOpener(draft, rest, k);
    }
    FirstOpener(body, |draft| + 2);
  }

  lemma NoOpenerFound(text: string, k: nat)
    requires FindOpener(text, 0) == None
    ensures !OpenerAt(text, k)
  {
  }

  lemma NoEarlierOpener(draft: string, rest: string, k: nat)
    requires FindOpener(draft + "\n", 0) == None && k < |draft| + 2
    ensures !OpenerAt(draft + "\n\n" + rest, k)
  {
    hide FindOpener, OpenerAt;
    var line := draft + "\n";
    if k + 23 <= |line| {
      NoOpenerFound(line, k);
      assert draft + "\n\n" + rest == line + ("\n" + rest);
      OpenerPrefix(line, "\n" + rest, k);
    } else {
      NoOpenerStraddles(draft, rest, k);
    }
  }

  lemma OwnCloser(payload: string, front: string)
    requires !Contains(payload, CLOSER)
    ensures Find(front + (payload + (CLOSER + "\n")), CLOSER, |front|) == Some(|front| + |payload|)
  {
    forall p: nat | p < |payload| < p + |CLOSER|
      ensures !ContainsAt(payload + (CLOSER + "\n"), CLOSER, p)
    {
      NoCloserStraddles(payload, "\n", p);
    }
    FirstEnd(payload, front, CLOSER, "\n");
  }

  /** A text without the word, and none astride its end: the word appended to it is the first. */
  lemma FirstEnd(payload: string, front: string, word: string, rest: string)
    requires !Contains(payload, word)
    requires forall p: nat :: p < |payload| < p + |word| ==> !ContainsAt(payload + (word + rest), word, p)
    ensures Find(front + (payload + (word + rest)), word, |front|) == Some(|front| + |payload|)
  {
    var tail, n := payload + (word + rest), |front|;
    forall k {:trigger ContainsAt(front + tail, word, k)} | n <= k < n + |payload|
      ensures !ContainsAt(front + tail, word, k)
    {
      Shift(front, tail, word, k - n);
      if k - n + |word| <= |payload| {
        PrefixAt(payload, word + rest, word, k - n);
      }
    }
    Shift(front, tail, word, |payload|);
    assert tail[|payload|..|payload| + |word|] == word;
    FirstFound(front + tail, word, n, n + |payload|);
  }

  lemma Shift(front: string, tail: string, word: string, k: nat)
    ensures ContainsAt(front + tail, word, |front| + k) == ContainsAt(tail, word, k)
  {
    assert k + |word| <= |tail| ==> (front + tail)[|front| + k..|front| + k + |word|] == tail[k..k + |word|];
  }

  /** A published body is read back under its own fingerprint exactly when its draft quotes no other one first. */
  lemma ReadBackOwn(decode: Decoder, e: Evidence)
    requires Encoded(decode, e)
    ensures Extract(decode, IssueBody(e)) == Some(e.fingerprint) <==> Faithful(decode, e)
  {
    hide Extract, IssueBody, Embedded, Encoded;
    ExtractBody(decode, e);
  }

  // ----- drafts that quote a block -----

  /** The first block of a draft, where no opening line starts before it. */
  lemma FirstQuoted(prefix: string, opener: string, quoted: string, suffix: string)
    requires Opens(opener) && !Contains(quoted, CLOSER)
    requires forall k: nat :: k < |prefix| ==> !OpenerAt(prefix + opener, k)
    ensures Embedded(prefix + opener + quoted + CLOSER + suffix) == Some(quoted)
  {
    hide Opens, Find, ContainsAt, Contains;
    var front, rest := prefix + opener, suffix + "\n";
    var draft := front + quoted + CLOSER + suffix;
    var tail := quoted + CLOSER + rest;
    assert draft + "\n" == front + tail;
    OpenerIsThere(prefix, opener);
    forall k: nat | k <= |prefix|
      ensures OpenerAt(front + tail, k) == OpenerAt(front, k)
    {
      OpenerPrefix(front, tail, k);
    }
    FirstOpener(draft + "\n", |prefix|);
    forall p: nat, more: string | p < |quoted| < p + |CLOSER|
      ensures !ContainsAt(quoted + (CLOSER + more), CLOSER, p)
    {
      NoCloserStraddles(quoted, more, p);
    }
    var whole := rest + CLOSER;
    FirstEnd(quoted, front, CLOSER, whole);
    Middle(front, quoted, CLOSER + whole);
    QuotedWhole(front, quoted, suffix);
  }

  lemma QuotedWhole(front: string, quoted: string, suffix: string)
    ensures front + quoted + CLOSER + suffix + "\n" + CLOSER == front + (quoted + (CLOSER + (suffix + "\n" + CLOSER)))
  {
    var c, n := CLOSER, "\n";
    Associate(front, quoted, c, suffix, n);
  }

  lemma Associate(a: string, b: string, c: string, d: string, n: string)
    ensures a + b + c + d + n + c == a + (b + (c + (d + n + c)))
  {
  }

  lemma OpenerIsThere(prefix: string, opener: string)
    requires Opens(opener)
    ensures |opener| == 23 && OpenerAt(prefix + opener, |prefix|)
  {
    assert (prefix + opener)[|prefix|..|prefix| + 23] == opener;
  }

  /** A draft's first quoted block is what its body is read as: its own request only if the block names that one. */
  lemma QuotedDraft(decode: Decoder, e: Evidence, prefix: string, opener: string, quoted: string, suffix: string)
    requires Opens(opener) && !Contains(quoted, CLOSER)
    requires forall k: nat :: k < |prefix| ==> !OpenerAt(prefix + opener, k)
    requires e.draft == prefix + opener + quoted + CLOSER + suffix
    ensures Faithful(decode, e) <==> decode(quoted) == Some(e.fingerprint)
    ensures Encoded(decode, e) ==> Extract(decode, IssueBody(e)) == decode(quoted)
  {
    hide Embedded, Opens, Contains, Extract, IssueBody, Encoded;
    FirstQuoted(prefix, opener, quoted, suffix);
    if Encoded(decode, e) {
      ExtractBody(decode, e);
    }
  }
}
