/** The two diagnostic formatters of the instance model: the name of one
    instance-state value, and the " | "-joined names of a state mask. */
module InstanceStateStrings {
  import opened DdsTypes

  predicate IsDigit(c: char) {
    '0' <= c <= '9'
  }

  predicate AllDigits(s: string) {
    forall i :: 0 <= i < |s| ==> IsDigit(s[i])
  }

  function DigitChar(d: nat): (c: char)
    requires d < 10
  {
    ('0' as int + d) as char
  }

  function DigitValue(c: char): nat
    requires IsDigit(c)
  {
    c as int - '0' as int
  }

  /** Decimal rendering of an unsigned value, without leading zeros
      (what to_dds_string gives for an unsigned state value). */
  function NatToDecimal(n: nat): (r: string)
    ensures 1 <= |r|
    ensures AllDigits(r)
    ensures r[0] == '0' ==> n == 0
    decreases n
  {
    if n < 10 then [DigitChar(n)] else NatToDecimal(n / 10) + [DigitChar(n % 10)]
  }

  /** The value a string of decimal digits denotes. */
  function DecimalValue(s: string): nat
    requires AllDigits(s)
  {
    if s == [] then 0 else DecimalValue(s[..|s| - 1]) * 10 + DigitValue(s[|s| - 1])
  }

  /** Reading back the decimal rendering gives the value that was rendered. */
  lemma {:induction false} DecimalRoundTrip(n: nat)
    ensures DecimalValue(NatToDecimal(n)) == n
  {
    if n >= 10 {
      var r := NatToDecimal(n);
      assert r[..|r| - 1] == NatToDecimal(n / 10);
      DecimalRoundTrip(n / 10);
    }
  }

  /** Distinct values have distinct decimal renderings. */
  lemma DecimalInjective(a: nat, b: nat)
    requires NatToDecimal(a) == NatToDecimal(b)
    ensures a == b
  {
    DecimalRoundTrip(a);
    DecimalRoundTrip(b);
  }

  /** The five values instance_state_string knows by name. */
  predicate IsNamedState(v: StateMask) {
    v == AliveState || v == NotAliveState || v == NotAliveDisposedState
    || v == NotAliveNoWritersState || v == AnyState
  }

  const UnknownPrefix: string := "(Unknown Instance State: "

  /** instance_state_string: the fixed name of a named state; any other value
      is reported as "(Unknown Instance State: <decimal value>)". */
  function InstanceStateString(v: StateMask): (r: string)
    ensures |r| > 0
    ensures IsNamedState(v) <==> r[0] != '('
  {
    if v == AliveState then "ALIVE_INSTANCE_STATE"
    else if v == NotAliveState then "NOT_ALIVE_INSTANCE_STATE"
    else if v == NotAliveDisposedState then "NOT_ALIVE_DISPOSED_INSTANCE_STATE"
    else if v == NotAliveNoWritersState then "NOT_ALIVE_NO_WRITERS_INSTANCE_STATE"
    else if v == AnyState then "ANY_INSTANCE_STATE"
    else UnknownPrefix + NatToDecimal(v) + ")"
  }

  /** The length of each fixed name; all five differ. */
  lemma NamedStateLengths(v: StateMask)
    requires IsNamedState(v)
    ensures |InstanceStateString(v)| == if v == AliveState then 20
      else if v == NotAliveState then 24
      else if v == NotAliveDisposedState then 33
      else if v == NotAliveNoWritersState then 35
      else 18
  {
  }

  /** No two state values share a name, known or unknown: the log line
      identifies the value. */
  lemma InstanceStateStringInjective(a: StateMask, b: StateMask)
    requires InstanceStateString(a) == InstanceStateString(b)
    ensures a == b
  {
    var s := InstanceStateString(a);
    if IsNamedState(a) {
      NamedStateLengths(a);
      NamedStateLengths(b);
    } else {
      var k := |UnknownPrefix|;
      var da, db := NatToDecimal(a), NatToDecimal(b);
      assert s == UnknownPrefix + da + ")";
      assert s == UnknownPrefix + db + ")";
      assert da == s[k..|s| - 1];
      assert db == s[k..|s| - 1];
      DecimalInjective(a, b);
    }
  }

  /** One step of the mask formatter: separate from what is there, if anything. */
  function AppendName(str: string, name: string): string {
    (if str != [] then str + " | " else str) + name
  }

  /** instance_state_mask_string: the composite names for ANY and NOT_ALIVE,
      otherwise the names of the set ALIVE, DISPOSED and NO_WRITERS bits,
      in that order; the empty string when none of them is set. */
  function MaskString(mask: StateMask): (r: string)
    ensures r == [] <==> NoStateBits(mask)
    ensures mask == AnyState ==> r == "ANY_INSTANCE_STATE"
    ensures mask == NotAliveState ==> r == "NOT_ALIVE_INSTANCE_STATE"
  {
    if mask == AnyState then InstanceStateString(AnyState)
    else if mask == NotAliveState then InstanceStateString(NotAliveState)
    else
      var withAlive :=
        if HasBit(mask, AliveState) then InstanceStateString(AliveState) else "";
      var withDisposed :=
        if HasBit(mask, NotAliveDisposedState)
        then AppendName(withAlive, InstanceStateString(NotAliveDisposedState))
        else withAlive;
      if HasBit(mask, NotAliveNoWritersState)
      then AppendName(withDisposed, InstanceStateString(NotAliveNoWritersState))
      else withDisposed
  }

  /** Reference definition: the names of the set state bits, in bit order. */
  function SetBitNames(mask: StateMask): seq<string> {
    (if HasBit(mask, AliveState) then [InstanceStateString(AliveState)] else [])
    + (if HasBit(mask, NotAliveDisposedState) then [InstanceStateString(NotAliveDisposedState)] else [])
    + (if HasBit(mask, NotAliveNoWritersState) then [InstanceStateString(NotAliveNoWritersState)] else [])
  }

  /** Reference definition: names separated by " | ". */
  function Join(names: seq<string>): string
    decreases |names|
  {
    if |names| == 0 then ""
    else if |names| == 1 then names[0]
    else names[0] + " | " + Join(names[1..])
  }

  predicate AllNonEmpty(names: seq<string>) {
    forall i :: 0 <= i < |names| ==> names[i] != []
  }

  /** Joining non-empty names gives a non-empty string. */
  lemma {:induction false} JoinNonEmpty(names: seq<string>)
    requires AllNonEmpty(names) && |names| > 0
    ensures Join(names) != []
  {
    if |names| > 1 {
      assert names[0] != [];
    }
  }

  /** Appending one more name, the way the formatter does it, extends the join. */
  lemma {:induction false} JoinSnoc(names: seq<string>, name: string)
    requires AllNonEmpty(names) && name != []
    ensures Join(names + [name]) == AppendName(Join(names), name)
  {
    if |names| == 1 {
      assert names + [name] == [names[0], name];
    } else if |names| > 1 {
      var rest := names[1..];
      assert (names + [name])[1..] == rest + [name];
      JoinSnoc(rest, name);
      JoinNonEmpty(rest);
      JoinNonEmpty(names);
      assert Join(names + [name]) == names[0] + " | " + (Join(rest) + " | " + name);
    }
  }

  /** Apart from the two composite masks, the step-by-step formatter is the
      " | "-join of the set bits' names. */
  lemma MaskStringJoinsSetBits(mask: StateMask)
    requires mask != AnyState && mask != NotAliveState
    ensures MaskString(mask) == Join(SetBitNames(mask))
  {
    var a := if HasBit(mask, AliveState) then [InstanceStateString(AliveState)] else [];
    var d := if HasBit(mask, NotAliveDisposedState) then [InstanceStateString(NotAliveDisposedState)] else [];
    var w := if HasBit(mask, NotAliveNoWritersState) then [InstanceStateString(NotAliveNoWritersState)] else [];
    assert SetBitNames(mask) == a + d + w;
    var withAlive := if HasBit(mask, AliveState) then InstanceStateString(AliveState) else "";
    assert withAlive == Join(a);
    var withDisposed := if HasBit(mask, NotAliveDisposedState)
      then AppendName(withAlive, InstanceStateString(NotAliveDisposedState)) else withAlive;
    if d != [] {
      JoinSnoc(a, InstanceStateString(NotAliveDisposedState));
    } else {
      assert a + d == a;
    }
    assert withDisposed == Join(a + d);
    if w != [] {
      JoinSnoc(a + d, InstanceStateString(NotAliveNoWritersState));
    } else {
      assert a + d + w == a + d;
    }
  }

  /** A mask holding exactly one stored state is named like that state. */
  lemma SingleStateMaskString(s: StateMask)
    requires s == AliveState || s == NotAliveDisposedState || s == NotAliveNoWritersState
    ensures MaskString(s) == InstanceStateString(s)
  {
    if s == AliveState {
      assert HasBit(s, AliveState) && !HasBit(s, NotAliveDisposedState) && !HasBit(s, NotAliveNoWritersState);
    } else if s == NotAliveDisposedState {
      assert !HasBit(s, AliveState) && HasBit(s, NotAliveDisposedState) && !HasBit(s, NotAliveNoWritersState);
    } else {
      assert !HasBit(s, AliveState) && !HasBit(s, NotAliveDisposedState) && HasBit(s, NotAliveNoWritersState);
    }
  }
}
