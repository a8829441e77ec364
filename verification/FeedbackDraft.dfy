/** The rendered draft of a feedback event (ls/core/handoff.py). */
module FeedbackDrafts {
  import opened Wrappers
  import opened Text
  import opened IssueHandoff
  import HealthFeedback

  /** An event's fields, redacted and shortened; an absent one has its stock text. */
  datatype Event = Event(operation: string, code: string, message: string, effect: string, commit: string)

  datatype Observation = Observation(producer: string, text: string)

  /** `"\n".join(lines)`. */
  function Join(lines: seq<string>): string {
    if lines == [] then "" else if |lines| == 1 then lines[0] else lines[0] + "\n" + Join(lines[1..])
  }

  // The template's long sentences are kept as short pieces: the prover spells every literal out
  // character by character, and each piece is checked for backticks on its own.
  const OUTCOME: seq<string> := [
    "The workflow should ", "complete or give a ", "recoverable, accurate ", "result while ",
    "preserving its ", "original effect ("]
  const IMPACT: seq<string> := [
    "The user must stop ", "this workflow and ", "investigate the ", "failure before ", "continuing."]
  const PRESERVE: seq<string> := ["- Preserve existing ", "authorization and ", "no-replay behavior."]
  const KEEP: seq<string> := [
    "- Keep diagnostic ", "records private ", "unless the exact ", "issue payload is ", "approved."]

  /** A sentence out of its pieces. */
  function Sentence(pieces: seq<string>): string { if pieces == [] then "" else pieces[0] + Sentence(pieces[1..]) }

  function Header(e: Event): seq<string> {
    ["# Maintenance request: " + e.operation + " fails with " + e.code, "",
     "## Problem", "", "The `" + e.operation + "` workflow reported `" + e.code + "`.", "",
     "## Desired outcome", "", Sentence(OUTCOME) + "`" + e.effect + "`).", "",
     "## User impact", "", Sentence(IMPACT), "",
     "## Evidence", "", "- Redacted diagnostic: " + e.message,
     "- Tool source commit: `" + e.commit + "`", "",
     "## Constraints", "", Sentence(PRESERVE), Sentence(KEEP)]
  }

  /** What goes before an observation's text. */
  function Heading(o: Observation): seq<string> { ["", "## Additional observation (" + o.producer + ")", ""] }

  function Notes(observations: seq<Observation>): seq<string> {
    if observations == [] then []
    else
      (if observations[0].text == "" then [] else Heading(observations[0]) + [observations[0].text])
      + Notes(observations[1..])
  }

  function Footer(): seq<string> {
    ["", "## Agent handoff", "",
     "Review this request against the recorded failure and current source. "
     + "Verify a minimal reproduction before proposing a fix.", ""]
  }

  /** `render_feedback_draft`. */
  function Render(e: Event, observations: seq<Observation>): string { Join(Header(e) + Notes(observations) + Footer()) }

  lemma {:induction false} JoinConcat(a: seq<string>, b: seq<string>)
    requires a != [] && b != []
    ensures Join(a + b) == Join(a) + "\n" + Join(b)
  {
    if |a| == 1 {
      assert (a + b)[1..] == b;
    } else {
      JoinConcat(a[1..], b);
      assert (a + b)[1..] == a[1..] + b;
    }
  }

  /** The draft up to the text of its first observation. */
  function Prefix(e: Event, o: Observation): string { Join(Header(e) + Heading(o)) + "\n" }

  lemma RenderSplits(e: Event, o: Observation, more: seq<Observation>) returns (suffix: string)
    requires o.text != ""
    ensures Render(e, [o] + more) == Prefix(e, o) + o.text + suffix
  {
    hide Header, Heading, Join, Footer;
    var rest := Notes(more) + Footer();
    var front := Header(e) + Heading(o);
    assert Heading(o) != [] && Footer() != [] by { Shapes(o); }
    assert ([o] + more)[1..] == more;
    assert Header(e) + Notes([o] + more) + Footer() == front + ([o.text] + rest);
    JoinConcat(front, [o.text] + rest);
    JoinConcat([o.text], rest);
    JoinOne(o.text);
    suffix := "\n" + Join(rest);
    assert Join(front) + "\n" + (o.text + "\n" + Join(rest)) == Prefix(e, o) + o.text + suffix;
  }

  lemma JoinOne(s: string)
    ensures Join([s]) == s
  {
  }

  lemma Shapes(o: Observation)
    ensures Heading(o) != [] && Footer() != []
  {
  }

  // ----- no opening line before the first observation -----

  ghost predicate Tickless(s: string) { forall k :: 0 <= k < |s| ==> s[k] != '`' }

  /** No two backticks in a row. */
  ghost predicate Single(s: string) { forall k :: 0 < k < |s| ==> s[k - 1] != '`' || s[k] != '`' }

  lemma {:induction false} SentenceTickless(pieces: seq<string>)
    requires forall k :: 0 <= k < |pieces| ==> Tickless(pieces[k])
    ensures Tickless(Sentence(pieces))
  {
    if pieces != [] {
      SentenceTickless(pieces[1..]);
    }
  }

  lemma Sentences()
    ensures Tickless(Sentence(OUTCOME)) && Tickless(Sentence(IMPACT))
    ensures Tickless(Sentence(PRESERVE)) && Tickless(Sentence(KEEP))
  {
    OutcomePieces();
    OtherPieces();
    hide Tickless, Sentence;
    SentenceTickless(OUTCOME);
    SentenceTickless(IMPACT);
    SentenceTickless(PRESERVE);
    SentenceTickless(KEEP);
  }

  lemma OutcomePieces()
    ensures forall k :: 0 <= k < |OUTCOME| ==> Tickless(OUTCOME[k])
    ensures forall k :: 0 <= k < |PRESERVE| ==> Tickless(PRESERVE[k])
  {
  }

  lemma OtherPieces()
    ensures forall k :: 0 <= k < |IMPACT| ==> Tickless(IMPACT[k])
    ensures forall k :: 0 <= k < |KEEP| ==> Tickless(KEEP[k])
  {
  }

  lemma SingleConcat(a: string, b: string)
    requires Single(a) && Single(b) && (a == "" || b == "" || a[|a| - 1] != '`' || b[0] != '`')
    ensures Single(a + b)
  {
    forall k | 0 < k < |a + b|
      ensures (a + b)[k - 1] != '`' || (a + b)[k] != '`'
    {
      if k > |a| {
        assert (a + b)[k] == b[k - |a|] && (a + b)[k - 1] == b[k - |a| - 1];
      }
    }
  }

  lemma TicklessConcat(a: string, b: string)
    requires Tickless(a) && Tickless(b)
    ensures Tickless(a + b)
  {
  }

  /** A field between single backticks. */
  lemma FieldSingle(a: string, field: string, b: string)
    requires Tickless(a) && Tickless(field) && field != "" && Tickless(b)
    ensures Single(a + "`" + field + "`" + b)
  {
    var left, right := a + "`", field + "`" + b;
    assert Single(left) && Single(field + "`") && Single(b);
    SingleConcat(field + "`", b);
    SingleConcat(left, right);
    assert a + "`" + field + "`" + b == left + right;
  }

  lemma {:induction false} JoinSingle(lines: seq<string>)
    requires forall k :: 0 <= k < |lines| ==> Single(lines[k])
    ensures Single(Join(lines))
  {
    if |lines| > 1 {
      JoinSingle(lines[1..]);
      assert Single("\n");
      SingleConcat(lines[0], "\n");
      SingleConcat(lines[0] + "\n", Join(lines[1..]));
    }
  }

  /** No field holds a backtick, and those set between backticks are not empty. */
  ghost predicate Plain(e: Event) {
    && Tickless(e.operation) && Tickless(e.code) && Tickless(e.message) && Tickless(e.effect) && Tickless(e.commit)
    && e.operation != "" && e.code != "" && e.effect != "" && e.commit != ""
  }

  lemma TitleSingle(e: Event)
    requires Plain(e)
    ensures Single("# Maintenance request: " + e.operation + " fails with " + e.code)
  {
    assert Tickless("# Maintenance request: ") && Tickless(" fails with ");
    var a, b := "# Maintenance request: " + e.operation, " fails with " + e.code;
    TicklessConcat("# Maintenance request: ", e.operation);
    TicklessConcat(" fails with ", e.code);
    TicklessConcat(a, b);
    assert "# Maintenance request: " + e.operation + " fails with " + e.code == a + b;
  }

  lemma ProblemSingle(e: Event)
    requires Plain(e)
    ensures Single("The `" + e.operation + "` workflow reported `" + e.code + "`.")
  {
    assert Tickless("The ") && Tickless(" workflow reported ") && Tickless(".") && Tickless("");
    var a, b := "The " + "`" + e.operation + "`" + " workflow reported ", "" + "`" + e.code + "`" + ".";
    FieldSingle("The ", e.operation, " workflow reported ");
    FieldSingle("", e.code, ".");
    assert a[|a| - 1] == ' ';
    SingleConcat(a, b);
    assert "The `" + e.operation + "` workflow reported `" + e.code + "`." == a + b;
  }

  lemma OutcomeSingle(e: Event)
    requires Plain(e)
    ensures Single(Sentence(OUTCOME) + "`" + e.effect + "`).")
  {
    Sentences();
    assert Tickless(").");
    var a := Sentence(OUTCOME);
    FieldSingle(a, e.effect, ").");
    assert a + "`" + e.effect + "`)." == a + "`" + e.effect + "`" + ").";
  }

  lemma EvidenceSingle(e: Event)
    requires Plain(e)
    ensures Single("- Redacted diagnostic: " + e.message) && Single("- Tool source commit: `" + e.commit + "`")
  {
    assert Tickless("- Redacted diagnostic: ") && Tickless("- Tool source commit: ") && Tickless("");
    TicklessConcat("- Redacted diagnostic: ", e.message);
    FieldSingle("- Tool source commit: ", e.commit, "");
    assert "- Tool source commit: `" + e.commit + "`" == "- Tool source commit: " + "`" + e.commit + "`" + "";
  }

  lemma TitlesSingle()
    ensures Single("") && Single("## Problem") && Single("## Desired outcome") && Single("## User impact")
    ensures Single("## Evidence") && Single("## Constraints")
  {
  }

  lemma HeaderSingle(e: Event)
    requires Plain(e)
    ensures forall k :: 0 <= k < |Header(e)| ==> Single(Header(e)[k])
  {
    TitleSingle(e);
    ProblemSingle(e);
    OutcomeSingle(e);
    EvidenceSingle(e);
    TitlesSingle();
    Sentences();
    hide Single, Plain, Sentence;
    TicklessSingle(Sentence(IMPACT));
    TicklessSingle(Sentence(PRESERVE));
    TicklessSingle(Sentence(KEEP));
  }

  lemma TicklessSingle(s: string)
    requires Tickless(s)
    ensures Single(s)
  {
  }

  lemma HeadingSingle(o: Observation)
    requires Tickless(o.producer)
    ensures forall k :: 0 <= k < |Heading(o)| ==> Single(Heading(o)[k])
  {
    assert Tickless("## Additional observation (") && Tickless(")") && Single("");
    TicklessConcat("## Additional observation (", o.producer);
    TicklessConcat("## Additional observation (" + o.producer, ")");
  }

  /** Nothing before the first observation opens a block, not even together with its first characters. */
  lemma PrefixIsClear(e: Event, o: Observation, opener: string, k: nat)
    requires Plain(e) && Tickless(o.producer) && k < |Prefix(e, o)|
    ensures !OpenerAt(Prefix(e, o) + opener, k)
  {
    HeaderSingle(e);
    HeadingSingle(o);
    hide Header, Heading, Plain, Tickless, Opens;
    var lines := Header(e) + Heading(o);
    JoinSingle(lines);
    assert Single("\n");
    SingleConcat(Join(lines), "\n");
    var prefix := Prefix(e, o);
    assert prefix[|prefix| - 1] == '\n';
    assert forall j :: 0 <= j < |prefix| ==> (prefix + opener)[j] == prefix[j];
    if OpenerAt(prefix + opener, k) {
      OpenerLetters(prefix + opener, k);
      assert false;
    }
  }

  /** An observation whose text holds a block, with no opening line before it. */
  ghost predicate Quotes(o: Observation, lead: string, opener: string, quoted: string, trail: string) {
    && Opens(opener) && !Contains(quoted, CLOSER) && o.text == lead + opener + quoted + CLOSER + trail
    && forall k: nat :: k < |lead| ==> !OpenerAt(lead + opener, k)
  }

  /** Nothing before the quoted block opens another one. */
  lemma LeadIsClear(e: Event, o: Observation, lead: string, opener: string, quoted: string, trail: string, k: nat)
    requires Plain(e) && Tickless(o.producer) && Quotes(o, lead, opener, quoted, trail)
    requires k < |Prefix(e, o) + lead|
    ensures !OpenerAt(Prefix(e, o) + lead + opener, k)
  {
    var prefix := Prefix(e, o);
    hide Prefix, Plain, Tickless, OpenerAt;
    assert prefix + lead + opener == prefix + (lead + opener);
    if k < |prefix| {
      PrefixIsClear(e, o, lead + opener, k);
    } else {
      OpenerShift(prefix, lead + opener, k - |prefix|);
    }
  }

  /**
   * An event whose own fields hold no backtick, and whose first observation
   * quotes a block anywhere in its text: the rendered draft's body is read as
   * that block, and as its own request only if the block names it.
   */
  lemma QuotingObservation(decode: Decoder, d: Evidence, e: Event, o: Observation, more: seq<Observation>,
                           lead: string, opener: string, quoted: string, trail: string)
    requires Plain(e) && Tickless(o.producer) && Quotes(o, lead, opener, quoted, trail)
    requires d.draft == Render(e, [o] + more)
    ensures Faithful(decode, d) <==> decode(quoted) == Some(d.fingerprint)
    ensures Encoded(decode, d) ==> Extract(decode, IssueBody(d)) == decode(quoted)
  {
    hide Render, Prefix, Opens, Faithful, Plain, Tickless, Contains, Extract, IssueBody, Encoded;
    assert o.text != "" by {
      assert |CLOSER| == 4;
    }
    var suffix := RenderSplits(e, o, more);
    forall k: nat | k < |Prefix(e, o) + lead|
      ensures !OpenerAt(Prefix(e, o) + lead + opener, k)
    {
      LeadIsClear(e, o, lead, opener, quoted, trail, k);
    }
    var c := CLOSER;
    Regroup(Prefix(e, o), lead, opener, quoted, c, trail, suffix);
    QuotedDraft(decode, d, Prefix(e, o) + lead, opener, quoted, trail + suffix);
  }

  lemma Regroup(p: string, l: string, a: string, b: string, c: string, t: string, s: string)
    ensures p + (l + a + b + c + t) + s == p + l + a + b + c + (t + s)
  {
  }

  /** Two observations readers take for a block; the second is no literal handoff block at all. */
  lemma QuotedBlocks()
    ensures Opens("```qc.issue-handoff.v1\n") && Opens("```qc-issue-handoff-v1\n")
    ensures !Contains("{}", CLOSER)
  {
    var a, b := "```qc.issue-handoff.v1\n", "```qc-issue-handoff-v1\n";
    assert a[..5] == "```qc" && a[6..19] == "issue-handoff" && a[20..] == "v1\n";
    assert b[..5] == "```qc" && b[6..19] == "issue-handoff" && b[20..] == "v1\n";
  }

  /**
   * The whole story at rendered drafts: an event whose first observation quotes
   * another block is published, the same trouble is reported again, and the
   * tool alone leaves two open issues for one fingerprint.
   */
  lemma RenderedDraftDuplicates(decode: Decoder, t: HealthFeedback.TargetId, a: Evidence, b: Evidence, e: Event,
                                o: Observation, lead: string, opener: string, quoted: string, trail: string)
    returns (worlds: seq<HealthFeedback.World>, acts: seq<HealthFeedback.Act>)
    requires Plain(e) && Tickless(o.producer) && Quotes(o, lead, opener, quoted, trail)
    requires Encoded(decode, a) && decode(quoted) != Some(a.fingerprint)
    requires a.draft == Render(e, [o]) && b.draft == Render(e, []) && a.fingerprint == b.fingerprint
    ensures HealthFeedback.OwnRun(decode, worlds, acts)
    ensures HealthFeedback.Duplicated(
              HealthFeedback.RemoteOf(worlds[|worlds| - 1], t),
              HealthFeedback.Plan(0, a, t, HealthFeedback.Create), HealthFeedback.Plan(1, b, t, HealthFeedback.Create))
  {
    hide Render, Plain, Quotes, Encoded, Faithful, HealthFeedback.Run, HealthFeedback.Duplicated, Extract, IssueBody;
    assert [o] + [] == [o];
    QuotingObservation(decode, a, e, o, [], lead, opener, quoted, trail);
    worlds, acts := HealthFeedback.QuotedBlockDuplicates(decode, t, a, b);
  }

  /**
   * The same for a comment: two issues are rightly created, more trouble is
   * rightly added to the first, but its observation quotes the second issue's
   * block, and two open issues are read under one fingerprint.
   */
  lemma RenderedCommentClashes(decode: Decoder, t: HealthFeedback.TargetId, a: Evidence, b: Evidence, c: Evidence,
                               e: Event, o: Observation, lead: string, opener: string, quoted: string, trail: string)
    returns (worlds: seq<HealthFeedback.World>, acts: seq<HealthFeedback.Act>)
    requires Plain(e) && Tickless(o.producer) && Quotes(o, lead, opener, quoted, trail) && c.draft == Render(e, [o])
    requires Encoded(decode, a) && Encoded(decode, b) && Encoded(decode, c)
    requires Faithful(decode, a) && Faithful(decode, b) && decode(quoted) == Some(b.fingerprint)
    requires a.fingerprint == c.fingerprint != b.fingerprint
    ensures HealthFeedback.OwnRun(decode, worlds, acts) && HealthFeedback.Apart(decode, worlds[0])
    ensures var remote := HealthFeedback.RemoteOf(worlds[|worlds| - 1], t);
            && HealthFeedback.OpenUnder(decode, remote, b.fingerprint, 0)
            && HealthFeedback.OpenUnder(decode, remote, b.fingerprint, 1)
            && HealthFeedback.Decide(decode, remote, b) == None
  {
    hide Render, Plain, Quotes, Encoded, Faithful, Extract, IssueBody;
    hide HealthFeedback.Run, HealthFeedback.Apart, HealthFeedback.OpenUnder, HealthFeedback.Decide;
    assert [o] + [] == [o];
    QuotingObservation(decode, c, e, o, [], lead, opener, quoted, trail);
    ReadBackOwn(decode, a);
    ReadBackOwn(decode, b);
    worlds, acts := HealthFeedback.QuotedCommentClashes(decode, t, a, b, c);
  }
}
