/** The bit-field helpers of tools/pcm/cpucounters.cpp, on machine words as natural numbers. */
module BitFields {

  // Arithmetic on uint32 arguments wraps here.
  const WRAP: nat := 0x1_0000_0000

  function Pow2(n: nat): (p: nat)
    ensures p > 0
  {
    if n == 0 then 1 else 2 * Pow2(n - 1)
  }

  // The bitwise conjunction, digit by digit.
  function And(a: nat, b: nat): nat {
    if a == 0 || b == 0 then 0 else 2 * And(a / 2, b / 2) + (a % 2) * (b % 2)
  }

  // A shift to the right by n drops the last n digits.
  function Shr(v: nat, n: nat): nat
    decreases n
  {
    if n == 0 then v else Shr(v / 2, n - 1)
  }

  // The last n digits.
  function Low(v: nat, n: nat): nat
    decreases n
  {
    if n == 0 then 0 else 2 * Low(v / 2, n - 1) + v % 2
  }

  // build_bit of width w.  Shifts by the word's width or more are undefined in C++, and for
  // end == w - 2 the source subtracts 1 from the least number of a signed type; that is taken to
  // wrap, as it does where signed arithmetic is in two's complement without traps.
  function BuildBit(w: nat, beg: nat, end: nat): nat
    requires beg < w && (end < w || end == WRAP - 1)
  {
    Shr(if end == w - 1 then Pow2(w) - 1 else Low(Pow2((end + 1) % WRAP) - 1, w), beg)
  }

  function Min(a: nat, b: nat): nat {
    if a <= b then a else b
  }

  function Max(a: nat, b: nat): nat {
    if a <= b then b else a
  }

  // extract_bits of width w, with the ends of the field in either order.
  function ExtractBits(w: nat, v: nat, beg: nat, end: nat): nat
    requires Min(beg, end) < w && (Max(beg, end) < w || Max(beg, end) == WRAP - 1)
  {
    And(Shr(v, Min(beg, end)), BuildBit(w, Min(beg, end), Max(beg, end)))
  }

  // ----- digits -----

  lemma MulMore(a: nat, d: nat)
    requires a > 0
    ensures a * d >= d
  {
    assert a * d == (a - 1) * d + d;
  }

  lemma Divided(v: nat, d: nat, q: nat, r: nat)
    requires r < d && v == q * d + r
    ensures v / d == q && v % d == r
  {
    var p, m := v / d, v % d;
    assert v == d * p + m && 0 <= m < d;
    assert (q - p) * d == q * d - p * d == -(p - q) * d;
    if p < q {
      MulMore(q - p, d);
    } else if p > q {
      MulMore(p - q, d);
    }
  }

  lemma {:induction false} Digits(v: nat, n: nat)
    ensures v == Shr(v, n) * Pow2(n) + Low(v, n)
    ensures Low(v, n) < Pow2(n)
    decreases n
  {
    if n > 0 {
      Digits(v / 2, n - 1);
      assert Shr(v, n) * Pow2(n) == 2 * (Shr(v / 2, n - 1) * Pow2(n - 1));
    }
  }

  // Shr and Low are the quotient and the remainder by a power of two.
  lemma Quotient(v: nat, n: nat)
    ensures v / Pow2(n) == Shr(v, n) && v % Pow2(n) == Low(v, n)
  {
    Digits(v, n);
    Divided(v, Pow2(n), Shr(v, n), Low(v, n));
  }

  lemma {:induction false} PowAdd(a: nat, b: nat)
    ensures Pow2(a + b) == Pow2(a) * Pow2(b)
  {
    if a > 0 {
      PowAdd(a - 1, b);
      assert Pow2(a) * Pow2(b) == 2 * (Pow2(a - 1) * Pow2(b));
    }
  }

  lemma {:induction false} PowMonotone(a: nat, b: nat)
    requires a < b
    ensures Pow2(a) < Pow2(b)
  {
    if a < b - 1 { PowMonotone(a, b - 1); }
  }

  // A mask of n ones takes the last n digits.
  lemma {:induction false} AndMask(v: nat, n: nat)
    ensures And(v, Pow2(n) - 1) == Low(v, n)
    decreases n
  {
    if n > 0 {
      AndMask(v / 2, n - 1);
      assert (Pow2(n) - 1) / 2 == Pow2(n - 1) - 1 && (Pow2(n) - 1) % 2 == 1;
    }
  }

  // Shifting a mask of e ones by b leaves e - b ones.
  lemma {:induction false} ShiftedMask(e: nat, b: nat)
    requires b <= e
    ensures Shr(Pow2(e) - 1, b) == Pow2(e - b) - 1
    decreases b
  {
    if b > 0 {
      ShiftedMask(e - 1, b - 1);
      assert (Pow2(e) - 1) / 2 == Pow2(e - 1) - 1;
    }
  }

  lemma {:induction false} LowAll(v: nat, n: nat)
    requires v < Pow2(n)
    ensures Low(v, n) == v
    decreases n
  {
    if n > 0 { LowAll(v / 2, n - 1); }
  }

  lemma {:induction false} ShrBound(v: nat, n: nat, b: nat)
    requires v < Pow2(n) && b <= n
    ensures Shr(v, b) < Pow2(n - b)
    decreases b
  {
    if b > 0 { ShrBound(v / 2, n - 1, b - 1); }
  }

  lemma {:induction false} ShrShr(v: nat, a: nat, b: nat)
    ensures Shr(Shr(v, a), b) == Shr(v, a + b)
    decreases a
  {
    if a > 0 { ShrShr(v / 2, a - 1, b); }
  }

  // ----- fields -----

  // build_bit is a mask of ones, one for each digit from lo to hi.
  lemma MaskMeans(w: nat, lo: nat, hi: nat)
    requires lo <= hi < w < WRAP
    ensures BuildBit(w, lo, hi) == Pow2(hi - lo + 1) - 1
  {
    hide Low, Shr, Pow2;
    if hi != w - 1 {
      PowMonotone(hi + 1, w);
      LowAll(Pow2(hi + 1) - 1, w);
    }
    ShiftedMask(hi + 1, lo);
  }

  lemma Extracted(w: nat, v: nat, beg: nat, end: nat)
    requires beg < w < WRAP && end < w
    ensures ExtractBits(w, v, beg, end) == Low(Shr(v, Min(beg, end)), Max(beg, end) - Min(beg, end) + 1)
  {
    hide And, Low, Shr, Pow2, BuildBit;
    var lo, hi := Min(beg, end), Max(beg, end);
    MaskMeans(w, lo, hi);
    AndMask(Shr(v, lo), hi - lo + 1);
  }

  /** extract_bits takes the digits from the lower to the higher of beg and end. */
  lemma ExtractMeans(w: nat, v: nat, beg: nat, end: nat)
    requires beg < w < WRAP && end < w
    ensures ExtractBits(w, v, beg, end) == v / Pow2(Min(beg, end)) % Pow2(Max(beg, end) - Min(beg, end) + 1)
  {
    hide ExtractBits, Shr, Low, Pow2;
    Extracted(w, v, beg, end);
    Quotient(v, Min(beg, end));
    Quotient(Shr(v, Min(beg, end)), Max(beg, end) - Min(beg, end) + 1);
  }

  /** When the higher end is the wrapped -1, the mask is empty: this is how a field of width 0 that
      starts at 0 is read, with end - 1 wrapped around. */
  lemma ExtractNothing(w: nat, v: nat, beg: nat)
    requires beg < w < WRAP - 1
    ensures ExtractBits(w, v, beg, WRAP - 1) == 0
  {
    LowAll(0, w);
    ShiftedMask(beg, beg);
    ShrZero(beg);
  }

  lemma {:induction false} ShrZero(n: nat)
    ensures Shr(0, n) == 0
  {
    if n > 0 { ShrZero(n - 1); }
  }

  // ----- the fields of an APIC id -----

  datatype Ids = Ids(thread: nat, core: nat, socket: nat)

  // populateEntry, with the widths of the SMT and the core field.
  function Populate(apic: nat, smt: nat, core: nat): Ids
    requires smt + core < 32
  {
    Ids(ExtractBits(32, apic, 0, (smt - 1) % WRAP),
        ExtractBits(32, apic, smt, (smt + core - 1) % WRAP),
        ExtractBits(32, apic, smt + core, 31))
  }

  // The id that three fields of these widths make up.
  function Packed(ids: Ids, smt: nat, core: nat): nat {
    ids.thread + Pow2(smt) * ids.core + Pow2(smt + core) * ids.socket
  }

  lemma ThreadMeans(apic: nat, smt: nat)
    requires smt < 32
    ensures ExtractBits(32, apic, 0, (smt - 1) % WRAP) == Low(apic, smt)
  {
    hide ExtractBits;
    if smt == 0 {
      ExtractNothing(32, apic, 0);
    } else {
      Extracted(32, apic, 0, smt - 1);
    }
  }

  lemma CoreMeans(apic: nat, smt: nat, core: nat)
    requires smt + core < 32
    ensures ExtractBits(32, apic, smt, (smt + core - 1) % WRAP) ==
      if core > 0 then Low(Shr(apic, smt), core) else if smt > 0 then Low(Shr(apic, smt - 1), 2) else 0
  {
    hide ExtractBits, Low, Shr;
    if core > 0 {
      Extracted(32, apic, smt, smt + core - 1);
    } else if smt > 0 {
      Extracted(32, apic, smt, smt - 1);
    } else {
      ExtractNothing(32, apic, 0);
    }
  }

  lemma SocketMeans(apic: nat, low: nat)
    requires low < 32 && apic < Pow2(32)
    ensures ExtractBits(32, apic, low, 31) == Shr(apic, low)
  {
    hide ExtractBits, Low, Shr, Pow2;
    Extracted(32, apic, low, 31);
    ShrBound(apic, 32, low);
    LowAll(Shr(apic, low), 32 - low);
  }

  // With a core field: v is split at p, and its quotient at q.
  lemma ThreeParts(v: nat, p: nat, q: nat, a: nat, b: nat, c: nat)
    requires v == (a * q + b) * p + c
    ensures c + p * b + (p * q) * a == v
  {
  }

  // Without one: the digits x that are read instead must be zero.
  lemma TwoParts(v: nat, p: nat, a: nat, b: nat, x: nat)
    requires p > 0 && v == a * p + b
    ensures b + p * x + p * a == v <==> x == 0
  {
    if x > 0 {
      MulMore(x, p);
    } else {
      assert p * x == 0;
    }
  }

  lemma IdsMean(apic: nat, smt: nat, core: nat)
    requires smt + core < 32 && apic < Pow2(32)
    ensures Populate(apic, smt, core) == Ids(Low(apic, smt),
      if core > 0 then Low(Shr(apic, smt), core) else if smt > 0 then Low(Shr(apic, smt - 1), 2) else 0,
      Shr(apic, smt + core))
  {
    hide ExtractBits, Low, Shr, Pow2;
    ThreadMeans(apic, smt);
    CoreMeans(apic, smt, core);
    SocketMeans(apic, smt + core);
  }

  /** The three fields rebuild the APIC id exactly when the core field is not empty, or there is
      no SMT field either, or the two digits read in place of the empty field are both zero. */
  lemma Rebuilds(apic: nat, smt: nat, core: nat)
    requires smt + core < 32 && apic < Pow2(32)
    ensures Packed(Populate(apic, smt, core), smt, core) == apic <==>
      core > 0 || smt == 0 || apic / Pow2(smt - 1) % 4 == 0
  {
    hide Populate, Low, Shr, Pow2;
    var ids := Populate(apic, smt, core);
    IdsMean(apic, smt, core);
    Digits(apic, smt);
    var p, q := Pow2(smt), Pow2(core);
    if core > 0 {
      Digits(Shr(apic, smt), core);
      ShrShr(apic, smt, core);
      PowAdd(smt, core);
      ThreeParts(apic, p, q, ids.socket, ids.core, ids.thread);
    } else {
      TwoParts(apic, p, ids.socket, ids.thread, ids.core);
      if smt > 0 { TwoDigits(apic, smt - 1); }
    }
  }

  lemma TwoDigits(v: nat, n: nat)
    ensures v / Pow2(n) % 4 == Low(Shr(v, n), 2)
  {
    Quotient(v, n);
    Quotient(Shr(v, n), 2);
    PowTwo();
    hide Pow2, Low, Shr;
  }

  lemma PowTwo()
    ensures Pow2(2) == 4
  {
    assert Pow2(2) == 2 * Pow2(1);
  }

  // For all ids: only the widths matter.
  lemma RebuildsAll(smt: nat, core: nat)
    requires smt + core < 32
    ensures (forall apic: nat :: apic < Pow2(32) ==> Packed(Populate(apic, smt, core), smt, core) == apic) <==>
      (core > 0 || smt == 0)
  {
    hide Populate, Packed;
    forall apic: nat | apic < Pow2(32) && (core > 0 || smt == 0)
      ensures Packed(Populate(apic, smt, core), smt, core) == apic
    {
      Rebuilds(apic, smt, core);
    }
    if core == 0 && smt > 0 {
      var apic := Pow2(smt);
      PowMonotone(smt, 32);
      Divided(apic, Pow2(smt - 1), 2, 0);
      Rebuilds(apic, smt, core);
      assert Packed(Populate(apic, smt, core), smt, core) != apic;
    }
  }

  // The shift that takes an APIC id to its L2 tile: the logarithm of the number of ids that share it.
  method L2Shift(sharing: nat) returns (shift: nat)
    requires sharing > 0
    ensures Pow2(shift) <= sharing < Pow2(shift + 1)
  {
    shift := 0;
    var w := sharing;
    while w > 1
      invariant w > 0 && w * Pow2(shift) <= sharing < (w + 1) * Pow2(shift)
    {
      Halved(w, Pow2(shift), sharing);
      w := w / 2;
      shift := shift + 1;
    }
    assert w == 1;
  }

  lemma Halved(w: nat, p: nat, x: nat)
    requires w * p <= x < (w + 1) * p
    ensures w / 2 * (2 * p) <= x < (w / 2 + 1) * (2 * p)
  {
    var h := w / 2;
    if w == 2 * h {
      assert h * (2 * p) == (2 * h) * p;
      assert (h + 1) * (2 * p) == (2 * h + 1) * p + p;
    } else {
      assert h * (2 * p) == w * p - p;
      assert (h + 1) * (2 * p) == (w + 1) * p;
    }
  }
}
