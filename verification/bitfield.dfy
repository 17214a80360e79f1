/** The two bit primitives of the status-bar settings screen. A mask may hold
    several bits: `GetBit` is an exact-match test on all of them, and `SetBit`
    sets or clears all of them while keeping every other bit. */
module BitField {
  import opened Bits

  /** `setBit`: with `s` the mask is or-ed in, without it the mask is
      cleared. */
  function SetBit(v: Word, m: Word, s: bool): (r: Word)
    ensures forall i | 0 <= i < 32 :: m[i] ==> r[i] == s
    ensures AgreeOff(r, v, m)
  {
    if s then Or(v, m) else And(v, Not(m))
  }

  /** `getBit`: the value and the mask agree on the mask. */
  function GetBit(v: Word, m: Word): bool
  {
    And(v, m) == m
  }

  /** `GetBit` passes exactly when every bit of the mask is set in the
      value. */
  lemma GetBitIsExactMatch(v: Word, m: Word)
    ensures GetBit(v, m) <==> Within(m, v)
  {
    if Within(m, v) {
      assert And(v, m) == m;
    }
    if GetBit(v, m) {
      forall i | 0 <= i < 32 && m[i]
        ensures v[i]
      {
        assert And(v, m)[i];
      }
    }
  }

  /** The exact-match test is not an any-bit test: a value holding one bit
      of a mask and lacking another shares a bit with the mask yet fails. */
  lemma GetBitIsNotAnyBit(v: Word, m: Word, i: nat, j: nat)
    requires i < 32 && j < 32 && m[i] && m[j] && v[i] && !v[j]
    ensures !GetBit(v, m) && And(v, m) != Zero()
  {
    assert !And(v, m)[j];
    assert And(v, m)[i];
  }

  /** The empty mask passes `GetBit` on every value. */
  lemma EmptyMaskPasses(v: Word)
    ensures GetBit(v, Zero())
  {
    assert And(v, Zero()) == Zero();
  }

  /** Reading back a nonempty mask gives the state just written; the empty
      mask reads back as set whatever was written. */
  lemma ReadBack(v: Word, m: Word, s: bool)
    ensures GetBit(SetBit(v, m, s), m) == (s || m == Zero())
  {
    GetBitIsExactMatch(SetBit(v, m, s), m);
    if !s && m != Zero() {
      var i :| 0 <= i < 32 && m[i] by {
        NonzeroHasBit(m);
      }
      assert !SetBit(v, m, s)[i];
    }
  }

  /** A word other than zero has a set bit. */
  lemma NonzeroHasBit(m: Word)
    requires m != Zero()
    ensures exists i | 0 <= i < 32 :: m[i]
  {
    var j :| 0 <= j < 32 && m[j] != Zero()[j];
  }

  /** A passing `GetBit` means setting the mask changes nothing, and the
      other way round. */
  lemma GetBitMeansSetIsNoOp(v: Word, m: Word)
    ensures GetBit(v, m) <==> SetBit(v, m, true) == v
  {
    GetBitIsExactMatch(v, m);
    if SetBit(v, m, true) == v {
      forall i | 0 <= i < 32 && m[i]
        ensures v[i]
      {
        assert SetBit(v, m, true)[i];
      }
    }
  }

  /** Writing the same state twice is writing it once. */
  lemma SetBitIdempotent(v: Word, m: Word, s: bool)
    ensures SetBit(SetBit(v, m, s), m, s) == SetBit(v, m, s)
  {
  }

  /** The last write to a mask wins. */
  lemma SetBitLastWins(v: Word, m: Word, s: bool, t: bool)
    ensures SetBit(SetBit(v, m, s), m, t) == SetBit(v, m, t)
  {
  }

  /** Writes to disjoint masks commute. */
  lemma SetBitCommutes(v: Word, a: Word, b: Word, s: bool, t: bool)
    requires Disjoint(a, b)
    ensures SetBit(SetBit(v, a, s), b, t) == SetBit(SetBit(v, b, t), a, s)
  {
  }

  /** The value holds the mask wholly or not at all. */
  predicate AllOrNone(v: Word, m: Word)
  {
    Within(m, v) || Disjoint(m, v)
  }

  /** Writing back the state `GetBit` reads changes nothing exactly when the
      value holds the mask wholly or not at all. */
  lemma SetBitOwnState(v: Word, m: Word)
    ensures SetBit(v, m, GetBit(v, m)) == v <==> AllOrNone(v, m)
  {
    GetBitIsExactMatch(v, m);
    if SetBit(v, m, GetBit(v, m)) == v && !GetBit(v, m) {
      forall i | 0 <= i < 32 && m[i]
        ensures !v[i]
      {
        assert !SetBit(v, m, false)[i];
      }
    }
  }
}
