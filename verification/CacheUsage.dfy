/** Prompt-cache accounting: four sources of figures, one clamp that keeps them consistent.
    Floating-point ratios are exact here. */
module CacheUsage {
  import opened Text

  type I32 = n: int | -0x8000_0000 <= n < 0x8000_0000

  function Max(a: int, b: int): int { if a < b then b else a }
  function Min(a: int, b: int): int { if a < b then a else b }

  function Clamp(n: int, lo: int, hi: int): int
    requires lo <= hi
  {
    if n < lo then lo else if n > hi then hi else n
  }

  function SaturatingSub(a: I32, b: I32): I32 {
    Clamp(a - b, -0x8000_0000, 0x7FFF_FFFF)
  }

  function ClampRatio(r: real): (c: real)
    ensures 0.0 <= c <= 1.0
  {
    if r < 0.0 then 0.0 else if r > 1.0 then 1.0 else r
  }

  /** `as i32` on a float in range: towards zero. */
  function Truncate(r: real): int { if r >= 0.0 then r.Floor else -((-r).Floor) }

  datatype Usage = Usage(creation: I32, read: I32, creation5m: I32, creation1h: I32)

  // ---------- the split ----------

  /** Rounding half up. */
  function Round(r: real): int { (r + 0.5).Floor }

  /** Between nothing and all of `n`. */
  predicate Within(n: int, x: real) {
    if n >= 0 then 0.0 <= x <= n as real else n as real <= x <= 0.0
  }

  /** A share of an amount. */
  function Share(n: int, r: real): (x: real)
    requires 0.0 <= r <= 1.0
    ensures Within(n, x)
  {
    n as real * r
  }

  function RoundWithin(n: I32, x: real): (m: I32)
    requires Within(n, x)
    ensures m == Round(x) && if n >= 0 then 0 <= m <= n else n <= m <= 0
  {
    Round(x)
  }

  function TruncateWithin(n: I32, x: real): (m: I32)
    requires Within(n, x)
    ensures m == Truncate(x) && if n >= 0 then 0 <= m <= n else n <= m <= 0
  {
    Truncate(x)
  }

  /** The 1-hour part of an amount, kept between 0 and the amount. */
  function OneHour(creation: I32, x: real): (h: I32)
    requires Within(creation, x)
    ensures 0 <= h <= Max(creation, 0) && (creation >= 0 ==> h == Round(x))
  {
    Clamp(RoundWithin(creation, x), 0, Max(creation, 0))
  }

  /** Creation split into 5-minute and 1-hour parts: they add up to it, and for a real amount
      the 1-hour part is the nearest whole number to its share. */
  function SplitByRatio(creation: I32, ratio1h: real): (parts: (I32, I32))
    ensures parts.0 + parts.1 == creation && 0 <= parts.1 <= Max(creation, 0)
    ensures creation >= 0 ==> parts.1 == Round(Share(creation, ClampRatio(ratio1h)))
  {
    var oneH := OneHour(creation, Share(creation, ClampRatio(ratio1h)));
    (SaturatingSub(creation, oneH), oneH)
  }

  function SplitPreservingRatio(original: Usage, creation: I32): (parts: (I32, I32)) {
    if original.creation > 0
    then SplitByRatio(creation, original.creation1h as real / original.creation as real)
    else (0, 0)
  }

  /** `clamp_to_total`: the read part has precedence over the creation part. */
  function ClampToTotal(u: Usage, totalInput: I32): Usage {
    var total := Max(totalInput, 0);
    var read := Clamp(u.read, 0, total);
    var creation := Clamp(u.creation, 0, total - read);
    var parts := SplitPreservingRatio(u, creation);
    Usage(creation, read, parts.0, parts.1)
  }

  /** A portion of an amount, towards zero: it never exceeds the amount. */
  function Portion(n: I32, ratio: real): (m: I32)
    ensures if n >= 0 then 0 <= m <= n else n <= m <= 0
  {
    TruncateWithin(n, Share(n, ClampRatio(ratio)))
  }

  /** `from_ratios`. */
  function FromRatios(input: I32, cacheRatio: real, creationRatio: real): Usage {
    var cached := Portion(input, cacheRatio);
    var creation := Portion(cached, creationRatio);
    var parts := SplitByRatio(creation, 0.0);
    Usage(creation, SaturatingSub(cached, creation), parts.0, parts.1)
  }

  /** `select_final_usage`. */
  function SelectFinalUsage(total: I32, metering: Option<(I32, I32)>, prefixRead: Option<I32>,
                            fingerprint: Option<Usage>, fallback: Usage): Usage
  {
    match metering
    case Some((read, creation)) => ClampToTotal(Usage(creation, read, creation, 0), total)
    case None =>
      match prefixRead
      case Some(estimated) => ClampToTotal(Usage(0, Min(estimated, total), 0, 0), total)
      case None =>
        match fingerprint
        case Some(fp) => ClampToTotal(fp, total)
        case None => ClampToTotal(fallback, total)
  }

  // ---------- consistency ----------

  ghost predicate IsConsistent(u: Usage, total: int) {
    && u.read >= 0 && u.creation >= 0 && u.creation5m >= 0 && u.creation1h >= 0
    && u.creation5m + u.creation1h == u.creation
    && u.read + u.creation <= Max(total, 0)
  }

  lemma ClampIsConsistent(u: Usage, total: I32)
    ensures IsConsistent(ClampToTotal(u, total), total)
  {
  }

  /** Whatever layer the figures come from and however wrong they are, the outcome is
      consistent with the total. */
  lemma FinalUsageIsConsistent(total: I32, metering: Option<(I32, I32)>, prefixRead: Option<I32>,
                               fingerprint: Option<Usage>, fallback: Usage)
    ensures IsConsistent(SelectFinalUsage(total, metering, prefixRead, fingerprint, fallback), total)
  {
    match metering {
      case Some((read, creation)) => ClampIsConsistent(Usage(creation, read, creation, 0), total);
      case None =>
        match prefixRead {
          case Some(estimated) => ClampIsConsistent(Usage(0, Min(estimated, total), 0, 0), total);
          case None =>
            ClampIsConsistent(if fingerprint.Some? then fingerprint.value else fallback, total);
        }
    }
  }

  /** The clamp takes nothing away from figures that are consistent already. */
  lemma ClampKeepsConsistent(u: Usage, total: I32)
    requires IsConsistent(u, total)
    ensures ClampToTotal(u, total) == u
  {
    if u.creation > 0 {
      var r := u.creation1h as real / u.creation as real;
      QuotientInUnit(u.creation1h, u.creation);
      assert Share(u.creation, r) == u.creation1h as real;
    }
  }

  lemma QuotientInUnit(a: int, b: int)
    requires 0 <= a <= b && 0 < b
    ensures 0.0 <= a as real / b as real <= 1.0 && a as real / b as real * b as real == a as real
  {
    var r := a as real / b as real;
    assert r * b as real == a as real;
  }

  /** The ratio fallback for a non-negative input is consistent with it, so its layer passes it
      on unchanged. */
  lemma FallbackIsConsistent(input: I32, cacheRatio: real, creationRatio: real)
    requires input >= 0
    ensures IsConsistent(FromRatios(input, cacheRatio, creationRatio), input)
    ensures SelectFinalUsage(input, None, None, None, FromRatios(input, cacheRatio, creationRatio))
         == FromRatios(input, cacheRatio, creationRatio)
  {
    ClampKeepsConsistent(FromRatios(input, cacheRatio, creationRatio), input);
  }

  // ---------- clamping twice ----------

  lemma ClampAmounts(u: Usage, outer: I32, inner: I32)
    requires inner <= outer
    ensures var once, twice := ClampToTotal(u, inner), ClampToTotal(ClampToTotal(u, outer), inner);
            once.read == twice.read && once.creation == twice.creation
  {
  }

  /** A rounding error made on a larger amount shrinks with the amount. */
  lemma ScaledDown(x: real, y: real, e: real)
    requires 0.0 <= y <= x && -0.5 <= x * e <= 0.5
    ensures -0.5 <= y * e <= 0.5
  {
    assert (x - y) * e == x * e - y * e;
    if e >= 0.0 {
      assert (x - y) * e >= 0.0 && y * e >= 0.0;
    } else {
      assert (x - y) * e <= 0.0 && y * e <= 0.0;
    }
  }

  /** A share that was rounded in a larger amount and is scaled down again is off by at most
      one half before it is rounded. */
  lemma ScaledRounding(c1: int, c2: int, share: real, r1: real)
    requires 0 <= c2 <= c1 && 0 < c1 && 0.0 <= share <= 1.0 && 0.0 <= r1 <= 1.0
    requires r1 * c1 as real == Round(Share(c1, share)) as real
    ensures Share(c2, share) - 0.5 <= Share(c2, r1) <= Share(c2, share) + 0.5
  {
    var e := r1 - share;
    assert c1 as real * e == r1 * c1 as real - Share(c1, share);
    ScaledDown(c1 as real, c2 as real, e);
    assert Share(c2, r1) == Share(c2, share) + c2 as real * e;
  }

  lemma RoundClose(a: real, b: real)
    requires b - 0.5 <= a <= b + 0.5
    ensures Round(b) - 1 <= Round(a) <= Round(b) + 1
  {
  }

  /** Splitting a smaller amount by the rounded split of a larger one. */
  lemma SplitTwice(c1: I32, c2: I32, share: real)
    requires 0 <= c2 <= c1 && 0 < c1 && 0.0 <= share <= 1.0
    ensures var h1 := SplitByRatio(c1, share).1;
            var h2, direct := SplitByRatio(c2, h1 as real / c1 as real).1, SplitByRatio(c2, share).1;
            direct - 1 <= h2 <= direct + 1
  {
    var h1 := SplitByRatio(c1, share).1;
    var r1 := h1 as real / c1 as real;
    QuotientInUnit(h1, c1);
    ScaledRounding(c1, c2, share, r1);
    RoundClose(Share(c2, r1), Share(c2, share));
  }

  /** Clamping to a total and then to a smaller one keeps the read and creation amounts of
      clamping to the smaller one directly; the 1-hour share moves by at most one. */
  lemma ClampTwice(u: Usage, outer: I32, inner: I32)
    requires inner <= outer
    ensures var once, twice := ClampToTotal(u, inner), ClampToTotal(ClampToTotal(u, outer), inner);
            && once.read == twice.read && once.creation == twice.creation
            && (0 <= u.creation1h <= u.creation ==>
                  once.creation1h - 1 <= twice.creation1h <= once.creation1h + 1)
  {
    ClampAmounts(u, outer, inner);
    var mid := ClampToTotal(u, outer);
    if 0 <= u.creation1h <= u.creation && 0 < u.creation && 0 < mid.creation {
      QuotientInUnit(u.creation1h, u.creation);
      SplitTwice(mid.creation, ClampToTotal(u, inner).creation, u.creation1h as real / u.creation as real);
    }
  }

  // ---------- when two clamps are one ----------

  /** What a total leaves for creation, behind the read part. */
  function Room(u: Usage, total: I32): (n: I32)
    ensures n >= 0
  {
    Max(total, 0) - Clamp(u.read, 0, Max(total, 0))
  }

  /** The first clamp cuts no creation, or the second leaves what it left, or leaves nothing; or
      the creation is all in one part. */
  predicate ClampsAsOne(u: Usage, outer: I32, inner: I32) {
    || u.creation <= Room(u, outer)
    || Room(u, inner) == Room(u, outer) || Room(u, inner) == 0
    || u.creation1h <= 0 || u.creation <= u.creation1h
  }

  lemma WholeShare(n: I32, creation: I32)
    requires 0 < creation && 0 <= n <= creation
    ensures SplitByRatio(creation, n as real / creation as real).1 == n
  {
    QuotientInUnit(n, creation);
    var r := n as real / creation as real;
    assert Share(creation, r) == n as real;
  }

  /** A ratio outside the unit interval counts as its nearer end. */
  lemma EdgeRatio(oneHour: I32, creation: I32)
    requires 0 < creation
    ensures oneHour <= 0 ==> ClampRatio(oneHour as real / creation as real) == 0.0
    ensures creation <= oneHour ==> ClampRatio(oneHour as real / creation as real) == 1.0
  {
    QuotientEnds(oneHour as real, creation as real, oneHour as real / creation as real);
  }

  lemma QuotientEnds(a: real, b: real, r: real)
    requires 0.0 < b && r * b == a
    ensures a <= 0.0 ==> r <= 0.0
    ensures b <= a ==> r >= 1.0
  {
    Scaled(0.0, r, b);
    Scaled(r, 1.0, b);
  }

  lemma EdgeShare(creation: I32, oneHour: I32, n: I32)
    requires 0 < creation && 0 <= n
    ensures oneHour <= 0 ==> SplitByRatio(n, oneHour as real / creation as real).1 == 0
    ensures creation <= oneHour ==> SplitByRatio(n, oneHour as real / creation as real).1 == n
  {
    EdgeRatio(oneHour, creation);
    assert Share(n, 0.0) == 0.0 && Share(n, 1.0) == n as real;
  }

  /** The parts of what a clamp keeps. */
  lemma ClampParts(u: Usage, total: I32)
    requires 0 < u.creation
    ensures var c := Min(u.creation, Room(u, total)); var t := ClampToTotal(u, total);
            && t.creation == c && t.creation5m == c - t.creation1h
            && t.creation1h == SplitByRatio(c, u.creation1h as real / u.creation as real).1
  {
  }

  lemma RoomAfter(u: Usage, outer: I32, inner: I32)
    requires inner <= outer
    ensures Room(ClampToTotal(u, outer), inner) == Room(u, inner) <= Room(u, outer)
    ensures ClampToTotal(ClampToTotal(u, outer), inner).read == ClampToTotal(u, inner).read
  {
  }

  /** Then clamping to a total and to a smaller one is clamping to the smaller one, to the last
      figure, for all inputs. */
  lemma ClampTwiceAgrees(u: Usage, outer: I32, inner: I32)
    requires inner <= outer && ClampsAsOne(u, outer, inner)
    ensures ClampToTotal(ClampToTotal(u, outer), inner) == ClampToTotal(u, inner)
  {
    RoomAfter(u, outer, inner);
    var mid := ClampToTotal(u, outer);
    if 0 < u.creation && 0 < mid.creation {
      ClampParts(u, outer);
      ClampParts(u, inner);
      ClampParts(mid, inner);
      var c2 := Min(u.creation, Room(u, inner));
      if u.creation1h <= 0 || u.creation <= u.creation1h {
        EdgeShare(u.creation, u.creation1h, mid.creation);
        EdgeShare(u.creation, u.creation1h, c2);
        EdgeShare(mid.creation, mid.creation1h, c2);
      } else if u.creation <= Room(u, outer) {
        WholeShare(u.creation1h, u.creation);
      } else if 0 < c2 {
        WholeShare(mid.creation1h, mid.creation);
      }
    }
  }

  /** The quotient of two whole numbers, rounded half up. */
  function RoundedQuotient(n: int, d: int): int
    requires 0 < d
  {
    (2 * n + d) / (2 * d)
  }

  lemma QuotientIsNearest(n: int, d: int)
    requires 0 < d
    ensures var q := RoundedQuotient(n, d); (2 * q - 1) * d <= 2 * n < (2 * q + 1) * d
  {
    var q := RoundedQuotient(n, d);
    var r := (2 * n + d) % (2 * d);
    assert 2 * n + d == (2 * d) * q + r;
    assert (2 * q - 1) * d == (2 * d) * q - d && (2 * q + 1) * d == (2 * d) * q + d;
  }

  /** The 1-hour part of an amount, in whole numbers. */
  lemma WholeSplit(kept: I32, oneHour: I32, creation: I32)
    requires 0 < creation && 0 <= kept
    ensures SplitByRatio(kept, oneHour as real / creation as real).1
         == RoundedQuotient(kept * Clamp(oneHour, 0, creation), creation)
  {
    var h := Clamp(oneHour, 0, creation);
    EdgeRatio(oneHour, creation);
    EdgeRatio(h, creation);
    NearestWhole(creation, h, kept, RoundedQuotient(kept * h, creation));
    QuotientIsNearest(kept * h, creation);
  }

  /** In every other case it depends on the rounding, exactly so: with `h` of the creation `c` for
      one hour, the first total leaving `c1` of it and the second `c2`, the two ways give the two
      rounded quotients stated, and the share is kept if and only if these agree. */
  lemma ClampTwiceExactly(u: Usage, outer: I32, inner: I32)
    requires inner <= outer && 0 < u.creation && 0 < Room(u, outer)
    ensures var c, h := u.creation, Clamp(u.creation1h, 0, u.creation);
            var c1, c2 := Min(c, Room(u, outer)), Min(c, Room(u, inner));
            var twice, once := RoundedQuotient(c2 * RoundedQuotient(c1 * h, c), c1), RoundedQuotient(c2 * h, c);
            && ClampToTotal(ClampToTotal(u, outer), inner).creation1h == twice
            && ClampToTotal(u, inner).creation1h == once
            && (ClampToTotal(ClampToTotal(u, outer), inner) == ClampToTotal(u, inner) <==> twice == once)
  {
    RoomAfter(u, outer, inner);
    var mid := ClampToTotal(u, outer);
    ClampParts(u, outer);
    ClampParts(u, inner);
    ClampParts(mid, inner);
    WholeSplit(Min(u.creation, Room(u, outer)), u.creation1h, u.creation);
    WholeSplit(Min(u.creation, Room(u, inner)), u.creation1h, u.creation);
    WholeSplit(Min(u.creation, Room(u, inner)), mid.creation1h, mid.creation);
  }

  lemma NearestWhole(c: I32, h: I32, kept: I32, q: int)
    requires 0 < c && 0 <= h <= c && 0 <= kept
    ensures SplitByRatio(kept, h as real / c as real).1 == q <==> (2 * q - 1) * c <= 2 * (kept * h) < (2 * q + 1) * c
  {
    QuotientInUnit(h, c);
    var r := h as real / c as real;
    var x := Share(kept, r);
    assert x * c as real == kept as real * (r * c as real) == (kept * h) as real;
    assert SplitByRatio(kept, r).1 == Round(x);
    RoundedTo(x, c, kept * h, q);
  }

  /** Rounding `p / c`. */
  lemma RoundedTo(x: real, c: int, p: int, q: int)
    requires 0 < c && x * c as real == p as real
    ensures Round(x) == q <==> (2 * q - 1) * c <= 2 * p < (2 * q + 1) * c
  {
    assert Round(x) == q <==> (2 * q - 1) as real <= 2.0 * x && 2.0 * x < (2 * q + 1) as real;
    AtLeast(x, c, p, 2 * q - 1);
    AtLeast(x, c, p, 2 * q + 1);
  }

  lemma AtLeast(x: real, c: int, p: int, bound: int)
    requires 0 < c && x * c as real == p as real
    ensures 2.0 * x < bound as real <==> 2 * p < bound * c
  {
    Scaled(2.0 * x, bound as real, c as real);
    Doubled(x, c as real, p as real);
    WholeProduct(bound, c);
  }

  lemma Doubled(x: real, c: real, p: real)
    requires x * c == p
    ensures 2.0 * x * c == 2.0 * p
  {
  }

  lemma WholeProduct(a: int, c: int)
    ensures a as real * c as real == (a * c) as real
  {
  }

  lemma Scaled(a: real, b: real, c: real)
    requires 0.0 < c
    ensures a < b <==> a * c < b * c
  {
    assert (b - a) * c == b * c - a * c;
    if a < b { assert (b - a) * c > 0.0; } else { assert (b - a) * c <= 0.0; }
  }

  /** The share does move: 1 of 3 clamped to 2 and then to 1 leaves 1, clamped to 1 leaves 0. */
  lemma ClampOrderMatters()
    ensures ClampToTotal(ClampToTotal(Usage(3, 0, 2, 1), 2), 1).creation1h == 1
    ensures ClampToTotal(Usage(3, 0, 2, 1), 1).creation1h == 0
  {
    ClampedThirds();
    ClampedHalf();
  }

  lemma ClampedHalf()
    ensures ClampToTotal(Usage(2, 0, 1, 1), 1) == Usage(1, 0, 0, 1)
  {
    assert SplitByRatio(1, 1.0 / 2.0).1 == Round(1.0 / 2.0) == 1;
  }

  lemma ClampedThirds()
    ensures ClampToTotal(Usage(3, 0, 2, 1), 2) == Usage(2, 0, 1, 1)
    ensures ClampToTotal(Usage(3, 0, 2, 1), 1) == Usage(1, 0, 1, 0)
  {
    assert SplitByRatio(2, 1.0 / 3.0).1 == Round(2.0 / 3.0) == 1;
    assert SplitByRatio(1, 1.0 / 3.0).1 == Round(1.0 / 3.0) == 0;
  }
}
