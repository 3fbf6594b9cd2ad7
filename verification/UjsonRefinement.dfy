/** Byte-by-byte stepping of the ujson machine yields the outcomes of the
    recursive-descent parser, for every stream. */
module UjsonRefinement {
  import opened Machine
  import opened Text
  import opened UjsonSpec
  import opened UjsonMachine

  lemma FindAt(s: seq<byte>, i: nat, j: nat, b: byte)
    requires i <= j <= |s| && (j < |s| ==> s[j] == b)
    requires forall k :: i <= k < j ==> s[k] != b
    ensures Find(s, i, b) == j
  {}

  lemma DigitsAt(s: seq<byte>, i: nat, j: nat)
    requires i <= j <= |s| && (j < |s| ==> !IsDigit(s[j]))
    requires forall k :: i <= k < j ==> IsDigit(s[k])
    ensures SkipDigits(s, i) == j
  {}

  // The token that ends at i starts at i - |t|, and i holds none of its bytes.
  lemma TokenBytes(s: seq<byte>, i: nat, t: seq<byte>)
    requires |t| <= i <= |s| && t == Suffix(s, i, |t|)
    ensures forall k :: i - |t| <= k < i ==> s[k] == t[k - (i - |t|)]
    ensures i < |s| ==> t + [s[i]] == Suffix(s, i + 1, |t| + 1)
  {}

  lemma QuotedOpen(s: seq<byte>, i: nat, t: seq<byte>)
    requires |t| <= i <= |s| && t == Suffix(s, i, |t|) && NoQuote(t) && FitsSlot(t)
    ensures i == |s| ==> Quoted(s, i - |t|) == More
    ensures i < |s| && s[i] == QUOTE ==> Quoted(s, i - |t|) == Ok(t, i + 1)
    ensures i < |s| && s[i] != QUOTE && !Room(t) ==> Quoted(s, i - |t|) == Bad(i)
  {
    hide Find;
    var j := i - |t|;
    TokenBytes(s, i, t);
    assert forall k :: j <= k < i ==> s[k] != QUOTE;
    if i == |s| || s[i] == QUOTE { FindAt(s, j, i, QUOTE); }
  }

  lemma NumberOpen(s: seq<byte>, i: nat, t: seq<byte>)
    requires |t| <= i <= |s| && t == Suffix(s, i, |t|) && NumberPrefix(t) && FitsSlot(t)
    ensures i == |s| ==> Number(s, i - |t|) == More
    ensures i < |s| && EndsNumber(s[i]) ==> Number(s, i - |t|) == Ok(t, i)
    ensures i < |s| && IsDigit(s[i]) && !Room(t) ==> Number(s, i - |t|) == Bad(i)
    ensures i < |s| && !EndsNumber(s[i]) && !IsDigit(s[i]) ==> Number(s, i - |t|) == Bad(i)
  {
    hide SkipDigits;
    var j := i - |t|;
    TokenBytes(s, i, t);
    assert forall k :: j + 1 <= k < i ==> IsDigit(s[k]);
    if i == |s| || !IsDigit(s[i]) { DigitsAt(s, j + 1, i); }
  }

  /** One step explains one byte: the rest of the document is parsed the same,
      or it is finished or refused at this very byte. */
  ghost predicate Explains(s: seq<byte>, i: nat, c: Core, r: (Core, Signal))
    requires i < |s| && Placed(i, c)
  {
    match r.1
    case Progress => Placed(i + 1, r.0) && Residual(s, i, c) == Residual(s, i + 1, r.0)
    case Fire(pairs) => Residual(s, i, c) == Ok(pairs, i + 1)
    case Error => Residual(s, i, c) == Bad(i)
  }

  // Residual is defined.
  ghost predicate Placed(i: nat, c: Core) {
    && (c.st == READ_KEY ==> |c.key| <= i)
    && (c.st == READ_VALUE || c.st == READ_VALUE_INT ==> |c.text| <= i)
    && (c.st == READ_VALUE_INT ==> c.text != [])
    && (c.st == WAIT_COMMA_OR_END ==> c.pairs != [])
  }

  lemma PrependNone(r: Parsed<seq<Pair>>)
    ensures Prepend([], r) == r
  {
    assert r.Ok? ==> [] + r.value == r.value;
  }

  lemma PrependTwice(a: seq<Pair>, b: seq<Pair>, r: Parsed<seq<Pair>>)
    ensures Prepend(a, Prepend(b, r)) == Prepend(a + b, r)
  {
    assert r.Ok? ==> a + (b + r.value) == a + b + r.value;
  }

  lemma AfterWs(s: seq<byte>, i: nat, pair: Pair, n: nat)
    requires i < |s| && IsWs(s[i])
    ensures ParseAfter(s, i, pair, n) == ParseAfter(s, i + 1, pair, n)
  {
    hide ParseMembers;
  }

  lemma StepStart(s: seq<byte>, from: nat, i: nat, c: Core)
    requires Tracks(s, from, i, c) && i < |s| && c.st == START
    ensures Explains(s, i, c, Step(c, s[i]))
  {
    hide ParseMembers;
    if s[i] == LBRACE { PrependNone(ParseMembers(s, i + 1, 0)); }
  }

  lemma StepDqStart(s: seq<byte>, from: nat, i: nat, c: Core)
    requires Tracks(s, from, i, c) && i < |s| && c.st == WAIT_DQ_START
    ensures Explains(s, i, c, Step(c, s[i]))
  {
    hide ParsePair, Quoted, ParseMember;
  }

  lemma StepReadKey(s: seq<byte>, from: nat, i: nat, c: Core)
    requires Tracks(s, from, i, c) && i < |s| && c.st == READ_KEY
    ensures Explains(s, i, c, Step(c, s[i]))
  {
    hide ParseAfter, Quoted, ParseColon, Suffix, GoodPairs, NoQuote;
    QuotedOpen(s, i, c.key);
  }

  lemma StepColon(s: seq<byte>, from: nat, i: nat, c: Core)
    requires Tracks(s, from, i, c) && i < |s| && c.st == WAIT_COLON
    ensures Explains(s, i, c, Step(c, s[i]))
  {
    hide ParseAfter, ParseValue;
  }

  lemma StepDqValue(s: seq<byte>, from: nat, i: nat, c: Core)
    requires Tracks(s, from, i, c) && i < |s| && c.st == WAIT_DQ_VALUE
    ensures Explains(s, i, c, Step(c, s[i]))
  {
    hide ParseAfter, Quoted, Number;
  }

  lemma StepReadValue(s: seq<byte>, from: nat, i: nat, c: Core)
    requires Tracks(s, from, i, c) && i < |s| && c.st == READ_VALUE
    ensures Explains(s, i, c, Step(c, s[i]))
  {
    hide ParseAfter, Quoted, Suffix, GoodPairs, NoQuote;
    QuotedOpen(s, i, c.text);
    assert (c.pairs + [Pair(c.key, c.text, false)])[..|c.pairs|] == c.pairs;
  }

  // A number that the byte at i ends, directly or by white space.
  lemma NumberEnds(s: seq<byte>, from: nat, i: nat, c: Core)
    requires Tracks(s, from, i, c) && i < |s| && c.st == READ_VALUE_INT && EndsNumber(s[i])
    ensures Explains(s, i, c, Step(c, s[i]))
  {
    hide ParseMembers, Number, Suffix, GoodPairs;
    NumberOpen(s, i, c.text);
    var last, n := [Pair(c.key, c.text, true)], |c.pairs|;
    assert (c.pairs + last)[..n] == c.pairs && (c.pairs + last)[n] == last[0];
    assert Residual(s, i, c) == Prepend(c.pairs, ParseAfter(s, i, last[0], n));
    if s[i] == COMMA {
      assert ParseAfter(s, i, last[0], n) == Prepend(last, ParseMembers(s, i + 1, n + 1));
      PrependTwice(c.pairs, last, ParseMembers(s, i + 1, n + 1));
    } else if s[i] == RBRACE {
      assert ParseAfter(s, i, last[0], n) == Ok(last, i + 1);
    } else {
      AfterWs(s, i, last[0], n);
    }
  }

  lemma StepReadNumber(s: seq<byte>, from: nat, i: nat, c: Core)
    requires Tracks(s, from, i, c) && i < |s| && c.st == READ_VALUE_INT
    ensures Explains(s, i, c, Step(c, s[i]))
  {
    hide ParseAfter, Number, Suffix, GoodPairs;
    if EndsNumber(s[i]) {
      NumberEnds(s, from, i, c);
    } else {
      NumberOpen(s, i, c.text);
    }
  }

  lemma StepCommaOrEnd(s: seq<byte>, from: nat, i: nat, c: Core)
    requires Tracks(s, from, i, c) && i < |s| && c.st == WAIT_COMMA_OR_END
    ensures Explains(s, i, c, Step(c, s[i]))
  {
    hide ParseMembers;
    var n := |c.pairs| - 1;
    assert c.pairs == c.pairs[..n] + [c.pairs[n]];
    if s[i] == COMMA { PrependTwice(c.pairs[..n], [c.pairs[n]], ParseMembers(s, i + 1, n + 1)); }
  }

  lemma StepExplains(s: seq<byte>, from: nat, i: nat, c: Core)
    requires Tracks(s, from, i, c) && i < |s|
    ensures Placed(i, c) && Explains(s, i, c, Step(c, s[i]))
  {
    hide Step, Residual;
    match c.st
    case START => StepStart(s, from, i, c);
    case WAIT_DQ_START => StepDqStart(s, from, i, c);
    case READ_KEY => StepReadKey(s, from, i, c);
    case WAIT_COLON => StepColon(s, from, i, c);
    case WAIT_DQ_VALUE => StepDqValue(s, from, i, c);
    case READ_VALUE => StepReadValue(s, from, i, c);
    case READ_VALUE_INT => StepReadNumber(s, from, i, c);
    case WAIT_COMMA_OR_END => StepCommaOrEnd(s, from, i, c);
  }

  lemma TokenStep(s: seq<byte>, i: nat, c: Core)
    requires i < |s| && TokenAt(s, i, c) && Step(c, s[i]).1 == Progress
    ensures TokenAt(s, i + 1, Step(c, s[i]).0)
  {
    hide Suffix, Ends;
    if c.st == READ_KEY { EndsStep(s, i, c.key); }
    if c.st == READ_VALUE || c.st == READ_VALUE_INT { EndsStep(s, i, c.text); }
    EndsStep(s, i, []);
    EndsNothing(s, i + 1);
  }

  lemma EndsNothing(s: seq<byte>, i: nat)
    requires i <= |s|
    ensures Ends(s, i, [])
    ensures i < |s| ==> Ends(s, i + 1, [s[i]])
  {}

  lemma EndsStep(s: seq<byte>, i: nat, t: seq<byte>)
    requires i < |s|
    ensures Ends(s, i, t) ==> Ends(s, i + 1, t + [s[i]])
    ensures t == [] ==> Ends(s, i + 1, [s[i]])
  {
    if Ends(s, i, t) { TokenBytes(s, i, t); }
  }

  lemma StepTracks(s: seq<byte>, from: nat, i: nat, c: Core)
    requires Tracks(s, from, i, c) && i < |s|
    ensures Step(c, s[i]).1 == Progress ==> Tracks(s, from, i + 1, Step(c, s[i]).0)
    ensures Step(c, s[i]).1 != Progress ==> Step(c, s[i]).0 == FRESH
  {
    assert Step(c, s[i]).1 == Progress ==> Step(c, s[i]).0.raw == c.raw + [s[i]];
    assert c.raw + [s[i]] == s[from..i + 1];
    hide Reachable, Step, TokenAt;
    StepReachable(c, s[i]);
    if Step(c, s[i]).1 == Progress { TokenStep(s, i, c); }
  }

  lemma ReadingEnd(s: seq<byte>, from: nat, c: Core)
    requires Tracks(s, from, |s|, c)
    requires c.st == READ_KEY || c.st == READ_VALUE || c.st == READ_VALUE_INT
    ensures Placed(|s|, c) && Residual(s, |s|, c) == More
  {
    hide Quoted, Number, Suffix, GoodPairs, ParseAfter, ParseColon;
    if c.st == READ_KEY {
      QuotedOpen(s, |s|, c.key);
    } else if c.st == READ_VALUE {
      QuotedOpen(s, |s|, c.text);
    } else {
      NumberOpen(s, |s|, c.text);
    }
  }

  /** At the end of the stream nothing more has happened. */
  lemma ResidualEnd(s: seq<byte>, from: nat, c: Core)
    requires Tracks(s, from, |s|, c)
    ensures Placed(|s|, c) && Residual(s, |s|, c) == More
  {
    hide Quoted, Number, TokenAt, GoodPairs;
    if c.st == READ_KEY || c.st == READ_VALUE || c.st == READ_VALUE_INT {
      ReadingEnd(s, from, c);
    }
  }

  /** What a run must satisfy when i bytes of s have been read. */
  ghost predicate Accounts(s: seq<byte>, i: nat, r: Run)
    requires i <= |s|
  {
    && Tracks(s, r.from, i, r.core) && Placed(i, r.core)
    && Residual(s, i, r.core) == Document(s, r.from)
    && Outcomes(s, 0) == r.log + Outcomes(s, r.from)
  }

  lemma FreshTracks(s: seq<byte>, i: nat)
    requires i <= |s|
    ensures Tracks(s, i, i, FRESH) && Placed(i, FRESH)
    ensures Residual(s, i, FRESH) == Document(s, i)
  {
    hide Document;
  }

  lemma OutcomesFrom(s: seq<byte>, i: nat)
    requires i <= |s|
    ensures InRange(Document(s, i), i, |s|)
    ensures var d := Document(s, i);
      && (d.Ok? ==> i < d.next && Outcomes(s, i) ==
                    [Fired(d.next - 1, d.value, Capture(s[i..d.next]))] + Outcomes(s, d.next))
      && (d.Bad? ==> Outcomes(s, i) == [Rejected(d.at)] + Outcomes(s, d.at + 1))
      && (d.More? ==> Outcomes(s, i) == [])
  {
    hide Document;
    DocumentRange(s, i);
  }

  lemma AppendOutcome(log: seq<Outcome>, o: Outcome, rest: seq<Outcome>)
    ensures log + ([o] + rest) == (log + [o]) + rest
  {}

  lemma AccountsStep(s: seq<byte>, i: nat, r: Run)
    requires i < |s| && Accounts(s, i, r)
    ensures Accounts(s, i + 1, Next(r, i, s[i]))
  {
    hide Residual, Step, Reachable, Document, Outcomes, TokenAt, Capture;
    StepExplains(s, r.from, i, r.core);
    StepTracks(s, r.from, i, r.core);
    var signal := Step(r.core, s[i]).1;
    if signal != Progress {
      FreshTracks(s, i + 1);
      OutcomesFrom(s, r.from);
      AppendOutcome(r.log, Outcomes(s, r.from)[0], Outcomes(s, i + 1));
      assert r.core.raw + [s[i]] == s[r.from..i + 1];
    }
  }

  lemma {:induction false} RunAccounts(s: seq<byte>, i: nat)
    requires i <= |s|
    ensures Accounts(s, i, RunOf(s[..i]))
    decreases i
  {
    hide Residual, Step, Reachable, Document;
    if i == 0 {
      FreshTracks(s, 0);
    } else {
      RunAccounts(s, i - 1);
      AccountsStep(s, i - 1, RunOf(s[..i - 1]));
      assert s[..i] == s[..i - 1] + [s[i - 1]];
      RunSnoc(s[..i - 1], s[i - 1]);
    }
  }

  /** For every byte stream, the machine's callbacks and error returns, with
      their positions, are those of the recursive-descent parser. */
  lemma RunIsOutcomes(s: seq<byte>)
    ensures RunOf(s).log == Outcomes(s, 0)
  {
    hide Residual, Reachable, Document, Outcomes;
    RunAccounts(s, |s|);
    assert s[..|s|] == s;
    ResidualEnd(s, RunOf(s).from, RunOf(s).core);
    OutcomesFrom(s, RunOf(s).from);
  }

  /** Whatever follows s, the outcomes on s stand, and the rest are those of
      the document that s has begun. */
  lemma RunThen(s: seq<byte>, t: seq<byte>)
    ensures RunOf(s).from <= |s|
    ensures Outcomes(s + t, 0) == Outcomes(s, 0) + Outcomes(s + t, RunOf(s).from)
  {
    hide Residual, Reachable, Document, Outcomes, RunOf;
    assert (s + t)[..|s|] == s;
    RunAccounts(s + t, |s|);
    RunIsOutcomes(s);
  }

  /** What has been reported is never taken back: more input only adds. */
  lemma OutcomesGrow(s: seq<byte>, t: seq<byte>)
    ensures Outcomes(s, 0) <= Outcomes(s + t, 0)
  {
    hide Outcomes;
    RunThen(s, t);
  }

  // Just after the last outcome.
  function Start(log: seq<Outcome>): nat {
    if log == [] then 0 else log[|log| - 1].at + 1
  }

  lemma NextStart(r: Run, at: nat, b: byte)
    requires r.from == Start(r.log)
    ensures Next(r, at, b).from == Start(Next(r, at, b).log)
  {
    hide Step, Capture;
  }

  lemma {:induction false} FromIsStart(s: seq<byte>)
    ensures RunOf(s).from == Start(RunOf(s).log)
    decreases |s|
  {
    hide Next, Start;
    if s == [] {
      StartOfNothing();
    } else {
      FromIsStart(s[..|s| - 1]);
      NextStart(RunOf(s[..|s| - 1]), |s| - 1, s[|s| - 1]);
    }
  }

  lemma StartOfNothing()
    ensures Start([]) == 0
  {}

  /** The current document starts just after the last outcome, and the machine
      has kept its bytes. */
  lemma RunStart(s: seq<byte>)
    ensures var r := RunOf(s);
      r.from == Start(r.log) && r.from <= |s| && r.core.raw == s[r.from..]
  {
    hide Residual, Reachable, Outcomes, RunOf, Document, TokenAt;
    RunAccounts(s, |s|);
    assert s[..|s|] == s;
    FromIsStart(s);
  }
}
