/** The network-traffic setting: one Java `int` packing an upload flag, a
    download flag, a unit flag and a refresh period stored from bit 16 up,
    each field selected by a mask read from resources at start-up. */
module TrafficCodec {
  import opened Bits
  import opened BitField

  /** The four masks. They come from resources, so nothing here fixes their
      values; `Valid` states the layout the codec relies on. */
  datatype Masks = Masks(up: Word, down: Word, unit: Word, period: Word)
  {
    /** Four nonempty, pairwise disjoint masks, the period mask holding no
        bit below bit 16. */
    predicate Valid()
    {
      up != Zero() && down != Zero() && unit != Zero() && period != Zero() &&
      Disjoint(up, down) && Disjoint(up, unit) && Disjoint(up, period) &&
      Disjoint(down, unit) && Disjoint(down, period) && Disjoint(unit, period) &&
      LowHalfClear(period)
    }

    /** The two flag masks the up/down picker writes. */
    function Flags(): Word
    {
      Or(up, down)
    }
  }

  /** No bit below bit 16 is set. */
  predicate LowHalfClear(w: Word)
  {
    forall i | 0 <= i < 16 :: !w[i]
  }

  /** The four fields of the packed word. */
  datatype Traffic = Traffic(up: bool, down: bool, unit: bool, period: JavaInt)

  /** The up/down picker changed to the entry whose value is `state`: the up
      bit, then the down bit, are copied from `state`. */
  function UpdateState(packed: Word, m: Masks, state: JavaInt): (r: Word)
    ensures AgreeOff(r, packed, m.Flags())
    ensures GetBit(r, m.down) == GetBit(FromInt(state), m.down)
    ensures Disjoint(m.up, m.down) ==> GetBit(r, m.up) == GetBit(FromInt(state), m.up)
  {
    var s := FromInt(state);
    var withUp := SetBit(packed, m.up, GetBit(s, m.up));
    var r := SetBit(withUp, m.down, GetBit(s, m.down));
    ReadBack(withUp, m.down, GetBit(s, m.down));
    ReadBack(packed, m.up, GetBit(s, m.up));
    EmptyMaskPasses(s);
    AgreeOffKeepsGetBit(r, withUp, m.down, m.up);
    r
  }

  /** The unit picker changed to the entry whose value is `choice`: the unit
      mask is set exactly when the choice is 1. */
  function UpdateUnit(packed: Word, unit: Word, choice: JavaInt): (r: Word)
    ensures AgreeOff(r, packed, unit)
    ensures unit != Zero() ==> (GetBit(r, unit) <==> choice == 1)
  {
    ReadBack(packed, unit, choice == 1);
    SetBit(packed, unit, choice == 1)
  }

  /** Period `p`, shifted to bit 16, is in range and lands inside the period
      mask. */
  predicate PeriodFits(period: Word, p: JavaInt)
  {
    0 <= p < 0x1_0000 && Within(ShiftLeft(FromInt(p), 16), period)
  }

  /** The period picker changed to `p`: the period bits are cleared and
      `p << 16` is added with Java's wrapping `+`. When `p` fits, the sum is
      the bitwise union, nothing outside the period mask moves, and the
      period reads back as `p`. */
  function UpdatePeriod(packed: Word, period: Word, p: JavaInt): (r: Word)
    ensures PeriodFits(period, p) ==> r == Or(SetBit(packed, period, false), ShiftLeft(FromInt(p), 16))
    ensures PeriodFits(period, p) ==> AgreeOff(r, packed, period)
    ensures PeriodFits(period, p) ==> PeriodOf(r, period) == p
  {
    var cleared := SetBit(packed, period, false);
    var q := ShiftLeft(FromInt(p), 16);
    if PeriodFits(period, p) then
      DisjointAddIsOr(cleared, q);
      PeriodReadsBack(cleared, period, p);
      Add(cleared, q)
    else
      Add(cleared, q)
  }

  /** A fitting period shifted into a word whose period bits are clear
      reads back as itself. */
  lemma PeriodReadsBack(cleared: Word, period: Word, p: JavaInt)
    requires Disjoint(cleared, period)
    requires PeriodFits(period, p)
    ensures PeriodOf(Or(cleared, ShiftLeft(FromInt(p), 16)), period) == p
  {
    var q := ShiftLeft(FromInt(p), 16);
    assert And(Or(cleared, q), period) == q;
    ShiftOutIn(p);
    ToIntFromInt(p);
  }

  /** The up/down part of the packed word, as the open screen looks it up
      among the picker's entry values: the word masked by `up + down`. */
  function StateKey(packed: Word, m: Masks): (r: Word)
    ensures Disjoint(m.up, m.down) ==> r == And(packed, m.Flags())
  {
    AddIsOrIffDisjoint(m.up, m.down);
    And(packed, Add(m.up, m.down))
  }

  /** The unit picker's position: 1 when the whole unit mask is set, else
      0. */
  function UnitIndex(packed: Word, unit: Word): (r: int)
    ensures r == 0 || r == 1
  {
    if GetBit(packed, unit) then 1 else 0
  }

  /** The period, read with Java's unsigned shift: the sign bit never
      spreads, so it is never negative and fits in 16 bits. */
  function PeriodOf(packed: Word, period: Word): (r: JavaInt)
    ensures 0 <= r < 0x1_0000
  {
    ShiftOutSmall(And(packed, period));
    ToInt(ShiftRightUnsigned(And(packed, period), 16))
  }

  /** All four fields of a packed word. */
  function Decode(packed: Word, m: Masks): Traffic
  {
    Traffic(GetBit(packed, m.up), GetBit(packed, m.down), GetBit(packed, m.unit),
            PeriodOf(packed, m.period))
  }

  /** The packed word holding the four fields, built from zero by the writes
      the pickers apply. */
  function Encode(t: Traffic, m: Masks): Word
  {
    UpdatePeriod(SetBit(SetBit(SetBit(Zero(), m.up, t.up), m.down, t.down), m.unit, t.unit),
                 m.period, t.period)
  }

  /** Words that differ only on `a` pass `GetBit` alike on a mask disjoint
      from `a`. */
  lemma AgreeOffKeepsGetBit(x: Word, y: Word, a: Word, b: Word)
    ensures AgreeOff(x, y, a) && Disjoint(a, b) ==> GetBit(x, b) == GetBit(y, b)
  {
    if AgreeOff(x, y, a) && Disjoint(a, b) {
      assert And(x, b) == And(y, b);
    }
  }

  /** Words that differ only on `a` hold the same period under a mask
      disjoint from `a`. */
  lemma AgreeOffKeepsPeriod(x: Word, y: Word, a: Word, b: Word)
    requires AgreeOff(x, y, a)
    requires Disjoint(a, b)
    ensures PeriodOf(x, b) == PeriodOf(y, b)
  {
    assert And(x, b) == And(y, b);
  }

  /** Encoding then decoding gives back the four fields. */
  lemma DecodeEncode(t: Traffic, m: Masks)
    requires m.Valid()
    requires PeriodFits(m.period, t.period)
    ensures Decode(Encode(t, m), m) == t
  {
    var a := SetBit(Zero(), m.up, t.up);
    var b := SetBit(a, m.down, t.down);
    var c := SetBit(b, m.unit, t.unit);
    var r := Encode(t, m);
    ReadBack(Zero(), m.up, t.up);
    ReadBack(a, m.down, t.down);
    ReadBack(b, m.unit, t.unit);
    AgreeOffKeepsGetBit(b, a, m.down, m.up);
    AgreeOffKeepsGetBit(c, b, m.unit, m.up);
    AgreeOffKeepsGetBit(c, b, m.unit, m.down);
    AgreeOffKeepsGetBit(r, c, m.period, m.up);
    AgreeOffKeepsGetBit(r, c, m.period, m.down);
    AgreeOffKeepsGetBit(r, c, m.period, m.unit);
  }

  /** A word the codec fully describes: no bit outside the four masks, and
      each flag mask wholly set or wholly clear. */
  predicate Canonical(packed: Word, m: Masks)
  {
    Within(packed, Or(m.Flags(), Or(m.unit, m.period))) &&
    AllOrNone(packed, m.up) && AllOrNone(packed, m.down) && AllOrNone(packed, m.unit)
  }

  /** Decoding then encoding gives back a word the codec fully describes. */
  lemma EncodeDecode(packed: Word, m: Masks)
    requires m.Valid()
    requires Canonical(packed, m)
    ensures Encode(Decode(packed, m), m) == packed
  {
    var t := Decode(packed, m);
    var q := And(packed, m.period);
    PeriodOfFits(packed, m.period);
    GetBitIsExactMatch(packed, m.up);
    GetBitIsExactMatch(packed, m.down);
    GetBitIsExactMatch(packed, m.unit);
    var c := SetBit(SetBit(SetBit(Zero(), m.up, t.up), m.down, t.down), m.unit, t.unit);
    assert Encode(t, m) == Or(SetBit(c, m.period, false), q);
  }

  /** The period read out of a word fits back in, shifting back to exactly
      the word's period bits. */
  lemma PeriodOfFits(packed: Word, period: Word)
    requires LowHalfClear(period)
    ensures PeriodFits(period, PeriodOf(packed, period))
    ensures ShiftLeft(FromInt(PeriodOf(packed, period)), 16) == And(packed, period)
  {
    var q := And(packed, period);
    FromIntToInt(ShiftRightUnsigned(q, 16));
    assert ShiftLeft(ShiftRightUnsigned(q, 16), 16) == q;
  }

  /** The up/down update leaves the decoded unit and period alone. */
  lemma UpdateStateKeepsUnitAndPeriod(packed: Word, m: Masks, state: JavaInt)
    requires m.Valid()
    ensures Decode(UpdateState(packed, m, state), m).unit == Decode(packed, m).unit
    ensures Decode(UpdateState(packed, m, state), m).period == Decode(packed, m).period
  {
    var r := UpdateState(packed, m, state);
    AgreeOffKeepsGetBit(r, packed, m.Flags(), m.unit);
    AgreeOffKeepsPeriod(r, packed, m.Flags(), m.period);
  }

  /** The unit update leaves the decoded flags and period alone. */
  lemma UpdateUnitKeepsOthers(packed: Word, m: Masks, choice: JavaInt)
    requires m.Valid()
    ensures Decode(UpdateUnit(packed, m.unit, choice), m).up == Decode(packed, m).up
    ensures Decode(UpdateUnit(packed, m.unit, choice), m).down == Decode(packed, m).down
    ensures Decode(UpdateUnit(packed, m.unit, choice), m).period == Decode(packed, m).period
  {
    var r := UpdateUnit(packed, m.unit, choice);
    AgreeOffKeepsGetBit(r, packed, m.unit, m.up);
    AgreeOffKeepsGetBit(r, packed, m.unit, m.down);
    AgreeOffKeepsPeriod(r, packed, m.unit, m.period);
  }

  /** A fitting period update leaves the decoded flags and unit alone. */
  lemma UpdatePeriodKeepsOthers(packed: Word, m: Masks, p: JavaInt)
    requires m.Valid()
    requires PeriodFits(m.period, p)
    ensures Decode(UpdatePeriod(packed, m.period, p), m).up == Decode(packed, m).up
    ensures Decode(UpdatePeriod(packed, m.period, p), m).down == Decode(packed, m).down
    ensures Decode(UpdatePeriod(packed, m.period, p), m).unit == Decode(packed, m).unit
  {
    var r := UpdatePeriod(packed, m.period, p);
    AgreeOffKeepsGetBit(r, packed, m.period, m.up);
    AgreeOffKeepsGetBit(r, packed, m.period, m.down);
    AgreeOffKeepsGetBit(r, packed, m.period, m.unit);
  }

  /** After a unit write, the open screen's unit position is 1 exactly when
      the choice was 1. */
  lemma UnitRoundTrip(packed: Word, unit: Word, choice: JavaInt)
    requires unit != Zero()
    ensures UnitIndex(UpdateUnit(packed, unit, choice), unit) == (if choice == 1 then 1 else 0)
  {
  }

  /** For any entry value, the stored up/down key holds exactly the flag
      masks the value holds wholly: a mask the value holds only in part is
      cleared, and the value's bits outside the masks are dropped. */
  lemma UpdateStateKeepsWholeMasks(packed: Word, m: Masks, state: JavaInt)
    requires Disjoint(m.up, m.down)
    ensures var s := FromInt(state);
            StateKey(UpdateState(packed, m, state), m) ==
              Or(if GetBit(s, m.up) then m.up else Zero(), if GetBit(s, m.down) then m.down else Zero())
  {
    var s := FromInt(state);
    var withUp := SetBit(packed, m.up, GetBit(s, m.up));
    var r := SetBit(withUp, m.down, GetBit(s, m.down));
    assert r == UpdateState(packed, m, state);
    var want := Or(if GetBit(s, m.up) then m.up else Zero(), if GetBit(s, m.down) then m.down else Zero());
    forall i | 0 <= i < 32
      ensures StateKey(r, m)[i] == want[i]
    {
      assert StateKey(r, m)[i] == (r[i] && (m.up[i] || m.down[i]));
    }
  }

  /** After an up/down write of a value holding each flag mask wholly or not
      at all, the open screen's lookup key is that value's flag part. */
  lemma UpdateStateKey(packed: Word, m: Masks, state: JavaInt)
    requires Disjoint(m.up, m.down)
    requires AllOrNone(FromInt(state), m.up) && AllOrNone(FromInt(state), m.down)
    ensures StateKey(UpdateState(packed, m, state), m) == And(FromInt(state), m.Flags())
  {
    var s := FromInt(state);
    GetBitIsExactMatch(s, m.up);
    GetBitIsExactMatch(s, m.down);
  }
}
