/** The byte-fed parser of ujson/ujson.c over its fixed-size slots, proved
    against the abstract machine and, through it, the recursive-descent parser. */
module Ujson {
  import opened Machine
  import opened Text
  import opened UjsonSpec
  import opened UjsonMachine
  import opened UjsonLookup
  import opened UjsonRefinement
  import opened UjsonGrammar
  import opened UjsonRefusal
  import opened UjsonRoundTrip

  // Slot i of the key and value tables: completed, in progress, or untouched.
  function KeySlot(pairs: seq<Pair>, key: seq<byte>, i: nat): seq<byte> {
    if i < |pairs| then pairs[i].key else if i == |pairs| then key else []
  }

  function TextSlot(pairs: seq<Pair>, text: seq<byte>, i: nat): seq<byte> {
    if i < |pairs| then pairs[i].text else if i == |pairs| then text else []
  }

  function SlotByte(t: seq<byte>, j: nat): byte { if j < |t| then t[j] else 0 }

  function Row(a: array2<byte>, i: nat): (r: seq<byte>)
    requires i < a.Length0
    reads a
    ensures |r| == a.Length1 && forall j :: 0 <= j < a.Length1 ==> r[j] == a[i, j]
  {
    seq(a.Length1, j requires 0 <= j < a.Length1 reads a => a[i, j])
  }

  lemma FirstDifference(r: seq<byte>, s: seq<byte>, k: nat)
    requires k <= IndexOf(r, 0) < |r| && k <= IndexOf(s, 0) < |s|
    requires r[k] != s[k]
    ensures CStr(r) != CStr(s)
  {
    var x, y := IndexOf(r, 0), IndexOf(s, 0);
    if x == y && k < x { assert CStr(r)[k] == r[k] && CStr(s)[k] == s[k]; }
  }

  /** The comparison loop of the lookup helpers: slot against C string. */
  method SameString(a: array2<byte>, row: nat, name: array<byte>) returns (same: bool)
    requires row < a.Length0 && IndexOf(Row(a, row), 0) < a.Length1
    requires IndexOf(name[..], 0) < name.Length
    ensures same == (CStr(Row(a, row)) == CStr(name[..]))
  {
    ghost var r, s := Row(a, row), name[..];
    ghost var x, y := IndexOf(r, 0), IndexOf(s, 0);
    var k, n := 0, 0;
    while a[row, k] != 0 && name[n] != 0 && a[row, k] == name[n]
      invariant k == n && k <= x && n <= y
      invariant forall j :: 0 <= j < k ==> r[j] == s[j]
      decreases x - k
    {
      k, n := k + 1, n + 1;
    }
    same := a[row, k] == 0 && name[n] == 0;
    if same {
      assert r[..x] == s[..y];
    } else {
      FirstDifference(r, s, k);
    }
  }

  /** `ujson_append_token`: room is kept for the terminator, which is written. */
  method AppendToken(a: array2<byte>, row: nat, cursor: uint16, b: byte) returns (ok: bool, cursor': uint16)
    requires row < a.Length0 && a.Length1 == STR_MAX
    modifies a
    ensures ok == (cursor < STR_MAX - 1)
    ensures cursor' == if ok then cursor + 1 else cursor
    ensures forall i, j :: 0 <= i < a.Length0 && 0 <= j < STR_MAX ==>
              a[i, j] == if !ok || i != row then old(a[i, j])
                         else if j == cursor then b
                         else if j == cursor + 1 then 0
                         else old(a[i, j])
  {
    if cursor >= STR_MAX - 1 { return false, cursor; }
    a[row, cursor] := b;
    cursor' := cursor + 1;
    a[row, cursor'] := 0;
    ok := true;
  }

  lemma SlotCStr(r: seq<byte>, t: seq<byte>)
    requires |r| == STR_MAX && FitsSlot(t)
    requires forall j :: 0 <= j < STR_MAX ==> r[j] == SlotByte(t, j)
    ensures CStr(r) == CStr(t) && IndexOf(r, 0) < STR_MAX
  {
    var i, j := IndexOf(r, 0), IndexOf(t, 0);
    if j < |t| { assert r[j] == 0; } else { assert r[|t|] == 0; }
    if i < |t| { assert t[i] == 0; }
  }

  lemma CaptureLength(raw: seq<byte>)
    ensures |Capture(raw)| < MSG_MAX
  {}

  // What a step adds to the record of outcomes.
  function Reports(signal: Signal, at: nat, raw: seq<byte>): seq<Outcome> {
    match signal
    case Progress => []
    case Fire(pairs) => [Fired(at, pairs, Capture(raw))]
    case Error => [Rejected(at)]
  }

  class Parser {
    const longMax: int
    var st: St
    var pairCount: uint8
    var tokPtr: uint16
    var msgPtr: uint16
    const key: array2<byte>
    const value: array2<byte>
    const valueInt: array<int32>
    const isNumeric: array<bool>
    const msg: array<byte>
    ghost var fed: seq<byte>
    ghost var log: seq<Outcome>

    ghost predicate Shape()
    {
      && key.Length0 == value.Length0 == valueInt.Length == isNumeric.Length == MAX_KV
      && key.Length1 == value.Length1 == STR_MAX && msg.Length == MSG_MAX
      && key != value && IsLongMax(longMax)
    }

    ghost predicate HoldsKeys(pairs: seq<Pair>, token: seq<byte>)
      requires Shape()
      reads key
    {
      forall i, j :: 0 <= i < MAX_KV && 0 <= j < STR_MAX ==> key[i, j] == SlotByte(KeySlot(pairs, token, i), j)
    }

    ghost predicate HoldsTexts(pairs: seq<Pair>, token: seq<byte>)
      requires Shape()
      reads value
    {
      forall i, j :: 0 <= i < MAX_KV && 0 <= j < STR_MAX ==> value[i, j] == SlotByte(TextSlot(pairs, token, i), j)
    }

    ghost predicate HoldsNumbers(pairs: seq<Pair>)
      requires Shape()
      reads valueInt, isNumeric
    {
      forall i :: 0 <= i < MAX_KV ==>
        && isNumeric[i] == (i < |pairs| && pairs[i].numeric)
        && valueInt[i] == if i < |pairs| && pairs[i].numeric then ReadInt32(longMax, pairs[i].text) else 0
    }

    ghost predicate HoldsMsg(raw: seq<byte>)
      requires Shape()
      reads this`msgPtr, msg
    {
      && msgPtr == |Capture(raw)|
      && forall j :: 0 <= j < MSG_MAX ==> msg[j] == SlotByte(Capture(raw), j)
    }

    /** The tables hold the pairs, the token in progress and the capture of c. */
    ghost predicate HoldsTables(c: Core)
      reads this`pairCount, this`msgPtr, key, value, valueInt, isNumeric, msg
    {
      && Shape() && GoodPairs(c.pairs) && pairCount == |c.pairs|
      && HoldsKeys(c.pairs, c.key) && HoldsTexts(c.pairs, c.text) && HoldsNumbers(c.pairs) && HoldsMsg(c.raw)
    }

    /** The fields hold the abstract state c. */
    ghost predicate Holds(c: Core)
      reads this`st, this`pairCount, this`tokPtr, this`msgPtr, key, value, valueInt, isNumeric, msg
    {
      && HoldsTables(c) && Reachable(c) && st == c.st
      && (c.st == READ_KEY ==> tokPtr == |c.key|)
      && (c.st == READ_VALUE || c.st == READ_VALUE_INT ==> tokPtr == |c.text|)
    }

    ghost predicate Valid()
      reads this, key, value, valueInt, isNumeric, msg
    {
      Holds(RunOf(fed).core) && log == RunOf(fed).log
    }

    constructor Init(longMax: int)
      requires IsLongMax(longMax)
      ensures Valid() && fed == [] && log == []
      ensures fresh(key) && fresh(value) && fresh(valueInt) && fresh(isNumeric) && fresh(msg)
    {
      this.longMax := longMax;
      key := new byte[MAX_KV, STR_MAX];
      value := new byte[MAX_KV, STR_MAX];
      valueInt := new int32[MAX_KV];
      isNumeric := new bool[MAX_KV];
      msg := new byte[MSG_MAX];
      fed, log := [], [];
      new;
      Reset();
    }

    method Reset()
      requires Shape()
      modifies this`st, this`pairCount, this`tokPtr, this`msgPtr, key, value, valueInt, isNumeric, msg
      ensures Holds(FRESH)
    {
      st, pairCount, tokPtr, msgPtr := START, 0, 0, 0;
      forall i, j | 0 <= i < MAX_KV && 0 <= j < STR_MAX { key[i, j] := 0; }
      forall i, j | 0 <= i < MAX_KV && 0 <= j < STR_MAX { value[i, j] := 0; }
      forall i | 0 <= i < MAX_KV { valueInt[i] := 0; }
      forall i | 0 <= i < MAX_KV { isNumeric[i] := false; }
      forall j | 0 <= j < MSG_MAX { msg[j] := 0; }
    }

    method CaptureByte(b: byte, ghost c: Core)
      requires Holds(c)
      modifies this`msgPtr, msg
      ensures Holds(c.(raw := c.raw + [b]))
    {
      if msgPtr < MSG_MAX - 1 {
        msg[msgPtr] := b;
        msgPtr := msgPtr + 1;
        msg[msgPtr] := 0;
      }
    }

    method AppendKey(b: byte, ghost c: Core) returns (ok: bool)
      requires Holds(c) && c.st == READ_KEY && b != QUOTE
      modifies this`tokPtr, key
      ensures ok == Room(c.key)
      ensures Holds(if ok then c.(key := c.key + [b]) else c)
    {
      ok, tokPtr := AppendToken(key, pairCount, tokPtr, b);
    }

    method AppendText(b: byte, ghost c: Core) returns (ok: bool)
      requires Holds(c) && (c.st == READ_VALUE || c.st == READ_VALUE_INT)
      requires if c.st == READ_VALUE then b != QUOTE else IsDigit(b)
      modifies this`tokPtr, value
      ensures ok == Room(c.text)
      ensures Holds(if ok then c.(text := c.text + [b]) else c)
    {
      ok, tokPtr := AppendToken(value, pairCount, tokPtr, b);
    }

    lemma PushKeys(pairs: seq<Pair>, p: Pair)
      requires Shape() && HoldsKeys(pairs, p.key)
      ensures HoldsKeys(pairs + [p], [])
    {}

    lemma PushTexts(pairs: seq<Pair>, p: Pair)
      requires Shape() && HoldsTexts(pairs, p.text)
      ensures HoldsTexts(pairs + [p], [])
    {}

    // A quoted value ends: the pair in progress becomes a completed one.
    method EndString(ghost c: Core)
      requires Holds(c) && c.st == READ_VALUE
      modifies this`st, this`pairCount
      ensures Holds(PushPair(c, false).(st := WAIT_COMMA_OR_END))
    {
      hide HoldsKeys, HoldsTexts, HoldsMsg, GoodPairs;
      ghost var p := Pair(c.key, c.text, false);
      PushGood(c.pairs, p);
      PushKeys(c.pairs, p);
      PushTexts(c.pairs, p);
      pairCount := pairCount + 1;
      st := WAIT_COMMA_OR_END;
    }

    // The slot in progress, read back as a C string.
    lemma NumberText(c: Core)
      requires Holds(c) && c.st == READ_VALUE_INT
      ensures CStr(Row(value, |c.pairs|)) == c.text
    {
      SlotCStr(Row(value, |c.pairs|), c.text);
      NumberNoNul(c.text);
    }

    /** `ujson_finalise_int`; the caller moves the state on. */
    method FinaliseInt(ghost c: Core)
      requires Holds(c) && c.st == READ_VALUE_INT
      modifies this`pairCount, valueInt, isNumeric
      ensures HoldsTables(PushPair(c, true))
      ensures Reachable(PushPair(c, true).(st := WAIT_DQ_START))
      ensures Reachable(PushPair(c, true).(st := WAIT_COMMA_OR_END))
    {
      NumberText(c);
      ghost var p := Pair(c.key, c.text, true);
      PushGood(c.pairs, p);
      assert Reachable(PushPair(c, true).(st := WAIT_DQ_START));
      assert Reachable(PushPair(c, true).(st := WAIT_COMMA_OR_END));
      assert |c.pairs| < MAX_KV;
      hide HoldsKeys, HoldsTexts, HoldsMsg, GoodPairs, CStr, ReadInt32, Reachable;
      PushKeys(c.pairs, p);
      PushTexts(c.pairs, p);
      valueInt[pairCount] := ReadInt32(longMax, CStr(Row(value, pairCount)));
      isNumeric[pairCount] := true;
      pairCount := pairCount + 1;
    }

    /** The user's handler: it sees the completed object, and does not touch
        the parser. */
    method OnMessage(ghost c: Core)
      requires HoldsTables(c)
      modifies this`log
      ensures log == old(log) + [Fired(|fed|, c.pairs, Capture(c.raw))]
    {
      assert msg[..msgPtr] == Capture(c.raw);
      log := log + [Fired(|fed|, c.pairs, msg[..msgPtr])];
    }

    method Fail() returns (r: uint8)
      requires Shape()
      modifies this`st, this`pairCount, this`tokPtr, this`msgPtr, this`log, key, value, valueInt, isNumeric, msg
      ensures Holds(FRESH) && r == 0
      ensures log == old(log) + [Rejected(|fed|)]
    {
      log := log + [Rejected(|fed|)];
      Reset();
      r := 0;
    }

    method BeginValue(b: byte, ghost c0: Core, ghost c: Core) returns (r: uint8)
      requires c == c0.(raw := c0.raw + [b]) && Holds(c) && c.st == WAIT_DQ_VALUE
      modifies this`st, this`pairCount, this`tokPtr, this`msgPtr, this`log, key, value, valueInt, isNumeric, msg
      ensures Holds(Step(c0, b).0)
      ensures log == old(log) + Reports(Step(c0, b).1, |fed|, c.raw)
      ensures r == if Step(c0, b).1 == Error then 0 else 1
    {
      r := 1;
      if b == QUOTE {
        st := READ_VALUE;
        tokPtr := 0;
      } else if NumberStart(b) {
        st := READ_VALUE_INT;
        tokPtr := 0;
        var ok: bool;
        ok, tokPtr := AppendToken(value, pairCount, tokPtr, b);
        // An empty slot has room for one byte.
        if !ok { assert false; }
      } else if !IsWs(b) {
        r := Fail();
      }
    }

    method InKey(b: byte, ghost c0: Core, ghost c: Core) returns (r: uint8)
      requires c == c0.(raw := c0.raw + [b]) && Holds(c) && c.st == READ_KEY
      modifies this`st, this`pairCount, this`tokPtr, this`msgPtr, this`log, key, value, valueInt, isNumeric, msg
      ensures Holds(Step(c0, b).0)
      ensures log == old(log) + Reports(Step(c0, b).1, |fed|, c.raw)
      ensures r == if Step(c0, b).1 == Error then 0 else 1
    {
      hide HoldsKeys, HoldsTexts, HoldsNumbers, HoldsMsg, GoodPairs;
      r := 1;
      if b == QUOTE {
        st := WAIT_COLON;
      } else {
        var ok := AppendKey(b, c);
        if !ok { r := Fail(); }
      }
    }

    method InString(b: byte, ghost c0: Core, ghost c: Core) returns (r: uint8)
      requires c == c0.(raw := c0.raw + [b]) && Holds(c) && c.st == READ_VALUE
      modifies this`st, this`pairCount, this`tokPtr, this`msgPtr, this`log, key, value, valueInt, isNumeric, msg
      ensures Holds(Step(c0, b).0)
      ensures log == old(log) + Reports(Step(c0, b).1, |fed|, c.raw)
      ensures r == if Step(c0, b).1 == Error then 0 else 1
    {
      hide HoldsKeys, HoldsTexts, HoldsNumbers, HoldsMsg, GoodPairs;
      r := 1;
      if b == QUOTE {
        EndString(c);
      } else {
        var ok := AppendText(b, c);
        if !ok { r := Fail(); }
      }
    }

    method InNumber(b: byte, ghost c0: Core, ghost c: Core) returns (r: uint8)
      requires c == c0.(raw := c0.raw + [b]) && Holds(c) && c.st == READ_VALUE_INT
      modifies this`st, this`pairCount, this`tokPtr, this`msgPtr, this`log, key, value, valueInt, isNumeric, msg
      ensures Holds(Step(c0, b).0)
      ensures log == old(log) + Reports(Step(c0, b).1, |fed|, c.raw)
      ensures r == if Step(c0, b).1 == Error then 0 else 1
    {
      hide HoldsKeys, HoldsTexts, HoldsNumbers, HoldsMsg, GoodPairs;
      r := 1;
      if b == COMMA {
        FinaliseInt(c);
        st := WAIT_DQ_START;
      } else if b == RBRACE {
        FinaliseInt(c);
        OnMessage(PushPair(c, true));
        Reset();
      } else if IsWs(b) {
        FinaliseInt(c);
        st := WAIT_COMMA_OR_END;
      } else if IsDigit(b) {
        var ok := AppendText(b, c);
        if !ok { r := Fail(); }
      } else {
        r := Fail();
      }
    }

    /** The switch on the state; c is the state with b already captured. */
    method Transition(b: byte, ghost c0: Core, ghost c: Core) returns (r: uint8)
      requires c == c0.(raw := c0.raw + [b]) && Holds(c)
      modifies this`st, this`pairCount, this`tokPtr, this`msgPtr, this`log, key, value, valueInt, isNumeric, msg
      ensures Holds(Step(c0, b).0)
      ensures log == old(log) + Reports(Step(c0, b).1, |fed|, c.raw)
      ensures r == if Step(c0, b).1 == Error then 0 else 1
    {
      hide HoldsKeys, HoldsTexts, HoldsNumbers, HoldsMsg, GoodPairs;
      r := 1;
      match st
      case START =>
        if b == LBRACE { st := WAIT_DQ_START; }
      case WAIT_DQ_START =>
        if b == QUOTE {
          if pairCount >= MAX_KV {
            r := Fail();
            return;
          }
          st := READ_KEY;
          tokPtr := 0;
        } else if !IsWs(b) {
          r := Fail();
        }
      case READ_KEY =>
        r := InKey(b, c0, c);
      case WAIT_COLON =>
        if b == COLON {
          st := WAIT_DQ_VALUE;
        } else if !IsWs(b) {
          r := Fail();
        }
      case WAIT_DQ_VALUE =>
        r := BeginValue(b, c0, c);
      case READ_VALUE =>
        r := InString(b, c0, c);
      case READ_VALUE_INT =>
        r := InNumber(b, c0, c);
      case WAIT_COMMA_OR_END =>
        if b == COMMA {
          st := WAIT_DQ_START;
        } else if b == RBRACE {
          OnMessage(c);
          Reset();
        } else if !IsWs(b) {
          r := Fail();
        }
    }

    /** Feeding a byte: the record of callbacks and refusals is that of the
        recursive-descent parser on everything fed so far, and 0 is returned
        exactly for a byte it refuses: one after which no object can follow,
        the comma behind an eighth pair excepted. */
    method FeedByte(b: byte) returns (r: uint8)
      requires Valid()
      modifies this, key, value, valueInt, isNumeric, msg
      ensures Valid() && fed == old(fed) + [b]
      ensures log == Outcomes(fed, 0)
      ensures r == if log == old(log) + [Rejected(|old(fed)|)] then 0 else 1
      ensures r == 0 <==> !Extends(Begun(old(fed)) + [b]) && !Full(fed)
    {
      hide Step, Holds, Reachable, Outcomes, Extends, Full, Begun;
      ghost var c := RunOf(fed).core;
      RunSnoc(fed, b);
      RunIsOutcomes(fed);
      RunIsOutcomes(fed + [b]);
      RefusedExactly(fed, b);
      CaptureByte(b, c);
      r := Transition(b, c, c.(raw := c.raw + [b]));
      assert log[|old(log)|..] == Reports(Step(c, b).1, |old(fed)|, c.raw + [b]);
      fed := fed + [b];
    }

    /** Over every reachable state: each slot is terminated, the slots not yet
        started are all zero, and the capture is the first 255 bytes since the
        last outcome. */
    lemma ReachableSlots()
      requires Valid()
      ensures pairCount <= 8
      ensures st == READ_KEY || st == WAIT_COLON || st == WAIT_DQ_VALUE || st == READ_VALUE || st == READ_VALUE_INT
              ==> pairCount < 8
      ensures forall i, j :: 0 <= i < 8 && j == 63 ==> key[i, j] == 0 && value[i, j] == 0
      ensures forall i, j :: pairCount < i < 8 && 0 <= j < 64 ==> key[i, j] == 0 && value[i, j] == 0
      ensures var from := Start(log);
        from <= |fed| && msgPtr == Min(|fed| - from, 255) && msg[..msgPtr] == fed[from..from + msgPtr] && msg[msgPtr] == 0
    {
      hide Outcomes, RunOf, Capture;
      RunStart(fed);
      var raw := RunOf(fed).core.raw;
      CaptureLength(raw);
      assert msg[..msgPtr] == Capture(raw);
    }

    // ---- lookups, on the object that the handler sees ----

    lemma KeyText(c: Core, i: nat)
      requires HoldsTables(c) && i < |c.pairs|
      ensures CStr(Row(key, i)) == CStr(c.pairs[i].key) && IndexOf(Row(key, i), 0) < STR_MAX
      ensures CStr(Row(value, i)) == CStr(c.pairs[i].text) && IndexOf(Row(value, i), 0) < STR_MAX
    {
      SlotCStr(Row(key, i), c.pairs[i].key);
      SlotCStr(Row(value, i), c.pairs[i].text);
    }

    method Find(name: array<byte>, ghost c: Core) returns (r: int)
      requires HoldsTables(c) && IndexOf(name[..], 0) < name.Length
      ensures r == FindKey(c.pairs, CStr(name[..]))
    {
      assert pairCount == |c.pairs| <= MAX_KV == key.Length0 && key.Length1 == STR_MAX;
      hide HoldsTables, CStr;
      var i := 0;
      ghost var want := CStr(name[..]);
      while i < pairCount
        invariant i <= |c.pairs|
        invariant FindKey(c.pairs, want) == FindFrom(c.pairs, want, i)
      {
        KeyText(c, i);
        var same := SameString(key, i, name);
        if same { return i; }
        i := i + 1;
      }
      return -1;
    }

    method GetStr(name: array<byte>, ghost c: Core) returns (r: Option<seq<byte>>)
      requires HoldsTables(c) && IndexOf(name[..], 0) < name.Length
      ensures r == TextFor(c.pairs, CStr(name[..]))
    {
      var idx := Find(name, c);
      if idx < 0 { return None; }
      KeyText(c, idx);
      r := Some(CStr(Row(value, idx)));
    }

    method GetInt(name: array<byte>, ghost c: Core) returns (r: Option<int32>)
      requires HoldsTables(c) && IndexOf(name[..], 0) < name.Length
      ensures r == IntFor(longMax, c.pairs, CStr(name[..]))
    {
      var idx := Find(name, c);
      if idx < 0 { return None; }
      if !isNumeric[idx] { return None; }
      r := Some(valueInt[idx]);
    }

    method ValueEq(name: array<byte>, expected: array<byte>, ghost c: Core) returns (r: bool)
      requires HoldsTables(c) && IndexOf(name[..], 0) < name.Length && IndexOf(expected[..], 0) < expected.Length
      ensures r == (TextFor(c.pairs, CStr(name[..])) == Some(CStr(expected[..])))
    {
      var idx := Find(name, c);
      if idx < 0 { return false; }
      KeyText(c, idx);
      r := SameString(value, idx, expected);
    }

    /** The four helpers on an object that was written for the entries es: they
        answer as the first entry with that key says. */
    method LookUp(name: array<byte>, expected: array<byte>, ghost c: Core, ghost ms: seq<Member>, ghost es: seq<Entry>)
      returns (idx: int, text: Option<seq<byte>>, number: Option<int32>, equal: bool)
      requires HoldsTables(c) && c.pairs == PairsOf(ms) && WritesAll(ms, es)
      requires IndexOf(name[..], 0) < name.Length && IndexOf(expected[..], 0) < expected.Length
      ensures -1 <= idx < |es|
      ensures match Lookup(es, CStr(name[..]))
        case None => idx == -1 && text == None && number == None && !equal
        case Some(v) =>
          && idx >= 0 && es[idx].key == CStr(name[..]) && es[idx].val == v
          && (forall k :: 0 <= k < idx ==> es[k].key != CStr(name[..]))
          && text == Some(ValueText(v))
          && number == (if v.JInt? then Some(v.n) else None)
          && equal == (ValueText(v) == CStr(expected[..]))
    {
      assert IsLongMax(longMax);
      hide HoldsTables, PairsOf, WritesAll, CStr, Lookup, FindKey, TextFor, IntFor, ValueText;
      ghost var want := CStr(name[..]);
      FoundIndex(ms, es, want);
      LookupWritten(longMax, ms, es, want);
      idx := Find(name, c);
      text := GetStr(name, c);
      number := GetInt(name, c);
      equal := ValueEq(name, expected, c);
    }
  }
}
