/** Which bytes ujson refuses, in terms of the grammar: the first byte after
    which no object can follow any more, with one exception at a full table. */
module UjsonRefusal {
  import opened Text
  import opened UjsonSpec
  import opened UjsonMachine
  import opened UjsonRefinement
  import opened UjsonGrammar

  /** u is an object of the grammar behind anything without '{'. */
  ghost predicate IsMessage(u: seq<byte>, before: seq<byte>, ms: seq<Member>) {
    IndexOf(before, LBRACE) == |before| && Derivation(ms) && u == Message(before, ms)
  }

  /** Some bytes, or none, complete u to an object. */
  ghost predicate Extends(u: seq<byte>) {
    exists t, before, ms :: IsMessage(u + t, before, ms)
  }

  /** Eight pairs and a comma: a ninth pair is awaited and has no slot. */
  predicate Full(s: seq<byte>) {
    RunOf(s).core.st == WAIT_DQ_START && |RunOf(s).core.pairs| == MAX_KV
  }

  /** The bytes of the document that s has begun, see RunStart. */
  function Begun(s: seq<byte>): seq<byte> { RunOf(s).core.raw }

  // ---- while the table is not full, every document can be completed ----

  // A byte that brings the state nearer to the closing brace.
  function Toward(st: St): byte {
    match st
    case START => LBRACE
    case WAIT_DQ_START => QUOTE
    case READ_KEY => QUOTE
    case WAIT_COLON => COLON
    case WAIT_DQ_VALUE => 0x30
    case READ_VALUE => QUOTE
    case READ_VALUE_INT => RBRACE
    case WAIT_COMMA_OR_END => RBRACE
  }

  function Rank(st: St): nat {
    match st
    case START => 5
    case WAIT_DQ_START => 4
    case READ_KEY => 3
    case WAIT_COLON => 2
    case WAIT_DQ_VALUE => 1
    case READ_VALUE => 1
    case READ_VALUE_INT => 0
    case WAIT_COMMA_OR_END => 0
  }

  // One such byte fires or goes on, still not full.
  lemma TowardStep(c: Core)
    requires Reachable(c) && !(c.st == WAIT_DQ_START && |c.pairs| == MAX_KV)
    ensures var (c', signal) := Step(c, Toward(c.st));
      || signal.Fire?
      || (signal == Progress && Rank(c'.st) < Rank(c.st) && !(c'.st == WAIT_DQ_START && |c'.pairs| == MAX_KV))
  {}

  lemma Finish(s: seq<byte>) returns (t: seq<byte>, o: Outcome)
    requires !Full(s)
    ensures RunOf(s + t).log == RunOf(s).log + [o] && o.Fired? && o.at == |s + t| - 1
    decreases Rank(RunOf(s).core.st)
  {
    hide Step, Reachable, RunOf, Capture;
    var c := RunOf(s).core;
    var b := Toward(c.st);
    RunReachable(s);
    TowardStep(c);
    RunSnoc(s, b);
    t := [b];
    if Step(c, b).1.Fire? {
      o := Fired(|s|, Step(c, b).1.pairs, Capture(c.raw + [b]));
    } else {
      var rest;
      rest, o := Finish(s + [b]);
      t := t + rest;
      assert s + t == (s + [b]) + rest;
    }
  }

  // ---- when it is full, none can ----

  // What follows is white space, or a refusal.
  lemma {:induction false} FullStays(s: seq<byte>, t: seq<byte>)
    requires Full(s)
    ensures var n := |RunOf(s).log|;
      || (Full(s + t) && RunOf(s + t).log == RunOf(s).log)
      || (|RunOf(s + t).log| > n && RunOf(s + t).log[n].Rejected?)
    decreases |t|
  {
    hide RunOf, Capture;
    if t == [] {
      assert s + t == s;
    } else {
      var p, b := t[..|t| - 1], t[|t| - 1];
      FullStays(s, p);
      assert s + t == (s + p) + [b];
      RunSnoc(s + p, b);
    }
  }

  // ---- both, in terms of the grammar ----

  lemma TailOf(s: seq<byte>, t: seq<byte>, from: nat)
    requires from <= |s|
    ensures (s + t)[from..] == s[from..] + t
  {}

  lemma AtTail(s: seq<byte>, from: nat, u: seq<byte>)
    requires from <= |s|
    ensures At(s, from, u) && from + |u| == |s| <==> s[from..] == u
  {}

  lemma SameTail<T>(a: seq<T>, x: seq<T>, y: seq<T>)
    requires a + x == a + y
    ensures x == y
  {
    assert (a + x)[|a|..] == x && (a + y)[|a|..] == y;
  }

  // The next outcome after s is what the document it has begun comes to.
  lemma AcceptedFires(s: seq<byte>, t: seq<byte>)
    requires RunOf(s).from <= |s| && Document(s + t, RunOf(s).from).Ok?
    ensures var n := |Outcomes(s, 0)|;
      |Outcomes(s + t, 0)| > n && Outcomes(s + t, 0)[n].Fired?
  {
    hide Document, Outcomes, RunOf, Capture;
    RunThen(s, t);
    OutcomesFrom(s + t, RunOf(s).from);
  }

  lemma FiredAccepts(s: seq<byte>, t: seq<byte>, o: Outcome)
    requires RunOf(s).from <= |s| && RunOf(s + t).log == RunOf(s).log + [o] && o.Fired?
    ensures Document(s + t, RunOf(s).from).Ok? && Document(s + t, RunOf(s).from).next == o.at + 1
  {
    hide Document, Outcomes, RunOf, Capture;
    RunThen(s, t);
    RunIsOutcomes(s);
    RunIsOutcomes(s + t);
    SameTail(RunOf(s).log, Outcomes(s + t, RunOf(s).from), [o]);
    OutcomesFrom(s + t, RunOf(s).from);
    assert Outcomes(s + t, RunOf(s).from)[0] == o;
  }

  lemma ExtendsUnlessFull(s: seq<byte>)
    requires !Full(s)
    ensures Extends(Begun(s))
  {
    hide RunOf, Outcomes, Document, Message, WellFormed, PairsOf, At, IndexOf;
    var t, o := Finish(s);
    RunStart(s);
    FiredAccepts(s, t, o);
    var from := RunOf(s).from;
    var before, ms := DocumentSound(s + t, from);
    AtTail(s + t, from, Message(before, ms));
    TailOf(s, t, from);
    assert IsMessage(Begun(s) + t, before, ms);
  }

  lemma FullExtendsNot(s: seq<byte>)
    requires Full(s)
    ensures !Extends(Begun(s))
  {
    hide RunOf, Outcomes, Document, Message, WellFormed, PairsOf, At, IndexOf;
    if Extends(Begun(s)) {
      var t, before, ms :| IsMessage(Begun(s) + t, before, ms);
      RunStart(s);
      var from := RunOf(s).from;
      TailOf(s, t, from);
      AtTail(s + t, from, Message(before, ms));
      DocumentComplete(s + t, from, before, ms);
      AcceptedFires(s, t);
      RunIsOutcomes(s);
      RunIsOutcomes(s + t);
      FullStays(s, t);
      assert false;
    }
  }

  /** After any stream, the document begun can still become an object of the
      grammar exactly when the parser does not wait for a ninth pair. */
  lemma ViableExactly(s: seq<byte>)
    ensures Extends(Begun(s)) <==> !Full(s)
  {
    if Full(s) { FullExtendsNot(s); } else { ExtendsUnlessFull(s); }
  }

  /** A byte is refused exactly when it makes the document one that nothing can
      complete any more, unless it leaves the parser waiting for a ninth pair. */
  lemma RefusedExactly(s: seq<byte>, b: byte)
    ensures Outcomes(s + [b], 0) == Outcomes(s, 0) + [Rejected(|s|)]
            <==> !Extends(Begun(s) + [b]) && !Full(s + [b])
  {
    hide RunOf, Step, Outcomes, Document, Extends, Full, Capture;
    var c := RunOf(s).core;
    RunSnoc(s, b);
    RunIsOutcomes(s);
    RunIsOutcomes(s + [b]);
    match Step(c, b).1
    case Progress =>
      StepKeeps(c, b);
      ViableExactly(s + [b]);
    case Fire(_) =>
      FiredExtends(s, b);
      assert Outcomes(s + [b], 0)[|Outcomes(s, 0)|].Fired?;
    case Error => RefusedExtendsNot(s, b);
  }

  lemma StepKeeps(c: Core, b: byte)
    ensures Step(c, b).1 == Progress ==> Step(c, b).0.raw == c.raw + [b]
    ensures Step(c, b).1 != Progress ==> Step(c, b).0 == FRESH
  {}

  lemma FiredExtends(s: seq<byte>, b: byte)
    requires Step(RunOf(s).core, b).1.Fire?
    ensures Extends(Begun(s) + [b])
  {
    hide RunOf, Step, Outcomes, Document, Message, WellFormed, PairsOf, At, IndexOf, Capture;
    RunSnoc(s, b);
    RunStart(s);
    FiredAccepts(s, [b], Fired(|s|, Step(RunOf(s).core, b).1.pairs, Capture(RunOf(s).core.raw + [b])));
    var from := RunOf(s).from;
    var before, ms := DocumentSound(s + [b], from);
    AtTail(s + [b], from, Message(before, ms));
    TailOf(s, [b], from);
    assert Begun(s) + [b] + [] == Begun(s) + [b];
    assert IsMessage(Begun(s) + [b] + [], before, ms);
  }

  lemma RefusedExtendsNot(s: seq<byte>, b: byte)
    requires Step(RunOf(s).core, b).1.Error?
    ensures !Extends(Begun(s) + [b]) && !Full(s + [b])
  {
    hide RunOf, Step, Outcomes, Document, Message, WellFormed, PairsOf, At, IndexOf, Capture;
    RunSnoc(s, b);
    StepKeeps(RunOf(s).core, b);
    if Extends(Begun(s) + [b]) {
      var t, before, ms :| IsMessage(Begun(s) + [b] + t, before, ms);
      RunStart(s);
      var from, u := RunOf(s).from, [b] + t;
      assert Begun(s) + [b] + t == Begun(s) + u;
      assert s + [b] + t == s + u;
      TailOf(s, u, from);
      AtTail(s + u, from, Message(before, ms));
      DocumentComplete(s + u, from, before, ms);
      AcceptedFires(s, u);
      OutcomesGrow(s + [b], t);
      RunIsOutcomes(s);
      RunIsOutcomes(s + [b]);
      assert false;
    }
  }

  // ---- between tokens ----

  predicate BetweenTokens(st: St) {
    st == WAIT_DQ_START || st == WAIT_COLON || st == WAIT_DQ_VALUE || st == WAIT_COMMA_OR_END
  }

  // The bytes that a token or a separator may start with there.
  predicate Starts(st: St, b: byte) {
    match st
    case WAIT_DQ_START => b == 0x22
    case WAIT_COLON => b == 0x3A
    case WAIT_DQ_VALUE => b == 0x22 || b == 0x2D || 0x30 <= b <= 0x39
    case _ => b == 0x2C || b == 0x7D
  }

  /** Between tokens a space, tab, CR or LF changes nothing, and any other byte
      that starts no token is refused. */
  lemma WhiteExactly(s: seq<byte>, b: byte)
    requires BetweenTokens(RunOf(s).core.st) && !Starts(RunOf(s).core.st, b)
    ensures b == 0x20 || b == 0x09 || b == 0x0D || b == 0x0A ==>
              && Outcomes(s + [b], 0) == Outcomes(s, 0)
              && RunOf(s + [b]).core == RunOf(s).core.(raw := Begun(s) + [b])
    ensures b != 0x20 && b != 0x09 && b != 0x0D && b != 0x0A ==>
              Outcomes(s + [b], 0) == Outcomes(s, 0) + [Rejected(|s|)]
  {
    hide RunOf, Outcomes;
    RunSnoc(s, b);
    RunIsOutcomes(s);
    RunIsOutcomes(s + [b]);
  }

  // ---- the exception exists ----

  // The shortest pair and its comma, five bytes.
  function EmptyPair(): seq<byte> { [QUOTE, QUOTE, COLON, 0x30, COMMA] }

  lemma OneMore(s: seq<byte>, n: nat)
    requires n < MAX_KV && RunOf(s).log == []
    requires RunOf(s).core.st == WAIT_DQ_START && |RunOf(s).core.pairs| == n
    ensures var r := RunOf(s + EmptyPair());
      r.log == [] && r.core.st == WAIT_DQ_START && |r.core.pairs| == n + 1
  {
    hide RunOf;
    var s1 := s + [QUOTE];
    var s2 := s1 + [QUOTE];
    var s3 := s2 + [COLON];
    var s4 := s3 + [0x30];
    RunSnoc(s, QUOTE);
    RunSnoc(s1, QUOTE);
    RunSnoc(s2, COLON);
    RunSnoc(s3, 0x30);
    RunSnoc(s4, COMMA);
    assert s4 + [COMMA] == s + EmptyPair();
  }

  // An open brace and n pairs, each with its comma.
  function OpenPairs(n: nat): seq<byte> {
    if n == 0 then [LBRACE] else OpenPairs(n - 1) + EmptyPair()
  }

  lemma {:induction false} OpenPairsRun(n: nat)
    requires n <= MAX_KV
    ensures var r := RunOf(OpenPairs(n));
      r.log == [] && r.core.st == WAIT_DQ_START && |r.core.pairs| == n
  {
    hide RunOf, EmptyPair;
    if n == 0 {
      EmptyRun([]);
      RunSnoc([], LBRACE);
      assert [] + [LBRACE] == [LBRACE];
    } else {
      OpenPairsRun(n - 1);
      OneMore(OpenPairs(n - 1), n - 1);
    }
  }

  lemma EmptyRun(s: seq<byte>)
    requires s == []
    ensures RunOf(s) == Run(FRESH, 0, [])
  {}

  /** The comma after the eighth pair is accepted although no object can follow:
      refusing at the first hopeless byte is not what the code does there. */
  lemma CommaAfterEight(s: seq<byte>)
    requires s == OpenPairs(MAX_KV)
    ensures Outcomes(s, 0) == [] && Full(s) && !Extends(Begun(s))
  {
    hide RunOf, Outcomes, Extends, OpenPairs;
    OpenPairsRun(MAX_KV);
    RunIsOutcomes(s);
    ViableExactly(s);
  }
}
