/** Order keys: digit strings a new one can always be made between
    (`packages/plugin/src/fractional-key.ts`). */
module FractionalKeys {
  import opened Json

  const BASE := 62
  const JITTER_BITS := 4

  // ---- Digits ----

  predicate IsDigit(c: char) {
    '0' <= c <= '9' || 'A' <= c <= 'Z' || 'a' <= c <= 'z'
  }

  /** A digit's place among "0-9A-Za-z". */
  function IndexOf(c: char): (d: int)
    requires IsDigit(c)
    ensures 0 <= d < BASE && DigitAt(d) == c
  {
    if c <= '9' then c as int - '0' as int
    else if c <= 'Z' then c as int - 'A' as int + 10
    else c as int - 'a' as int + 36
  }

  function DigitAt(d: int): (c: char)
    requires 0 <= d < BASE
    ensures IsDigit(c)
  {
    if d < 10 then ('0' as int + d) as char
    else if d < 36 then ('A' as int + d - 10) as char
    else ('a' as int + d - 36) as char
  }

  lemma DigitsInOrder(c: char, d: char)
    requires IsDigit(c) && IsDigit(d)
    ensures c < d <==> IndexOf(c) < IndexOf(d)
    ensures c == d <==> IndexOf(c) == IndexOf(d)
  {
  }

  lemma IndexOfDigitAt(d: int)
    requires 0 <= d < BASE
    ensures IndexOf(DigitAt(d)) == d
  {
  }

  // ---- Keys ----

  /** Digits, and not a zero at the end. */
  predicate IsValidKey(key: string) {
    key != "" && key[|key| - 1] != '0' && forall i | 0 <= i < |key| :: IsDigit(key[i])
  }

  /** The bottom, or a key. */
  predicate IsLow(a: string) {
    a == "" || IsValidKey(a)
  }

  /** A range a key can be made in: `b` is the top when absent. */
  predicate IsRange(a: string, b: Option<string>) {
    IsLow(a) && (b.Some? ==> IsValidKey(b.value) && Less(a, b.value))
  }

  ghost predicate IsBetween(a: string, k: string, b: Option<string>) {
    IsValidKey(k) && Less(a, k) && (b.Some? ==> Less(k, b.value))
  }

  function First(a: string): char {
    if a == "" then '0' else a[0]
  }

  function Tail(a: string): string {
    if a == "" then "" else a[1..]
  }

  lemma TailIsLow(a: string)
    requires IsLow(a)
    ensures IsLow(Tail(a)) && IsDigit(First(a))
  {
    if |a| > 1 {
      assert a[1..][|a| - 2] == a[|a| - 1];
    }
  }

  lemma TailIsValid(b: string)
    requires IsValidKey(b) && |b| > 1
    ensures IsValidKey(b[1..])
  {
    assert b[1..][|b| - 2] == b[|b| - 1];
  }

  lemma PrependIsValid(c: char, m: string)
    requires IsDigit(c) && IsValidKey(m)
    ensures IsValidKey([c] + m)
  {
    var k := [c] + m;
    assert k[|k| - 1] == m[|m| - 1];
    forall i | 0 <= i < |k|
      ensures IsDigit(k[i])
    {
      assert i > 0 ==> k[i] == m[i - 1];
    }
  }

  lemma LessPrepended(c: char, x: string, y: string)
    ensures Less([c] + x, [c] + y) == Less(x, y)
  {
    assert ([c] + x)[1..] == x && ([c] + y)[1..] == y;
  }

  /** Past a shared first digit the range is the range of the rests. */
  lemma RangeOfTails(a: string, b: string)
    requires IsRange(a, Some(b)) && First(a) == b[0]
    ensures |b| > 1 && IsRange(Tail(a), Some(b[1..]))
  {
    TailIsLow(a);
    assert a != "" ==> Less(a[1..], b[1..]);
    if |b| > 1 { TailIsValid(b); }
  }

  /** A key strictly between `a` and `b`, digit by digit. */
  function Midpoint(a: string, b: Option<string>): string
    requires IsRange(a, b)
    decreases |a| + (if b.Some? then |b.value| else 0)
  {
    TailIsLow(a);
    if b.Some? && First(a) == b.value[0] then
      RangeOfTails(a, b.value);
      [b.value[0]] + Midpoint(Tail(a), Some(b.value[1..]))
    else
      var low := IndexOf(First(a));
      var high := if b.Some? then IndexOf(b.value[0]) else BASE;
      if high - low > 1 then [DigitAt((low + high + 1) / 2)]
      else if b.Some? && |b.value| > 1 then [b.value[0]]
      else [DigitAt(low)] + Midpoint(Tail(a), None)
  }

  /** The two first digits of a range that do not agree are in order. */
  lemma FirstsInOrder(a: string, b: string)
    requires IsRange(a, Some(b)) && First(a) != b[0]
    ensures IsDigit(First(a)) && IndexOf(First(a)) < IndexOf(b[0])
  {
    TailIsLow(a);
    DigitsInOrder(First(a), b[0]);
  }

  /** The midpoint is a key, between its bounds, and at most one digit longer than the longer of them. */
  lemma {:induction false} MidpointHolds(a: string, b: Option<string>)
    requires IsRange(a, b)
    ensures IsBetween(a, Midpoint(a, b), b) && |Midpoint(a, b)| <= Longer(a, b) + 1
    decreases |a| + (if b.Some? then |b.value| else 0), 1
  {
    TailIsLow(a);
    if b.Some? && First(a) == b.value[0] {
      MidpointPastShared(a, b.value);
    } else {
      MidpointSplit(a, b);
    }
  }

  function Longer(a: string, b: Option<string>): nat {
    if b.Some? && |b.value| > |a| then |b.value| else |a|
  }

  lemma {:induction false} MidpointPastShared(a: string, b: string)
    requires IsRange(a, Some(b)) && First(a) == b[0]
    ensures IsBetween(a, Midpoint(a, Some(b)), Some(b)) && |Midpoint(a, Some(b))| <= Longer(a, Some(b)) + 1
    decreases |a| + |b|, 0
  {
    RangeOfTails(a, b);
    MidpointHolds(Tail(a), Some(b[1..]));
    var rest := Midpoint(Tail(a), Some(b[1..]));
    PrependIsValid(b[0], rest);
    LessPrepended(b[0], rest, b[1..]);
    LessPrepended(b[0], Tail(a), rest);
    assert b == [b[0]] + b[1..];
    assert a != "" ==> a == [b[0]] + Tail(a);
  }

  lemma {:induction false} MidpointSplit(a: string, b: Option<string>)
    requires IsRange(a, b) && (b.Some? ==> First(a) != b.value[0])
    ensures IsBetween(a, Midpoint(a, b), b) && |Midpoint(a, b)| <= Longer(a, b) + 1
    decreases |a| + (if b.Some? then |b.value| else 0), 0
  {
    TailIsLow(a);
    var low := IndexOf(First(a));
    var high := if b.Some? then IndexOf(b.value[0]) else BASE;
    if b.Some? { FirstsInOrder(a, b.value); }
    if high - low > 1 {
      InTheGap(a, b, low, high);
    } else if b.Some? && |b.value| > 1 {
      OwnFirstDigit(a, b.value);
      assert Midpoint(a, b) == [b.value[0]];
    } else {
      MidpointHolds(Tail(a), None);
      UnderOwnDigit(a, b, Midpoint(Tail(a), None));
    }
  }

  lemma InTheGap(a: string, b: Option<string>, low: int, high: int)
    requires IsRange(a, b) && (b.Some? ==> First(a) != b.value[0]) && IsDigit(First(a))
    requires low == IndexOf(First(a)) && high == (if b.Some? then IndexOf(b.value[0]) else BASE) && high - low > 1
    ensures IsBetween(a, Midpoint(a, b), b) && |Midpoint(a, b)| == 1
  {
    SingleDigitBetween(a, b, (low + high + 1) / 2);
    assert Midpoint(a, b) == [DigitAt((low + high + 1) / 2)];
  }

  lemma UnderOwnDigit(a: string, b: Option<string>, rest: string)
    requires IsRange(a, b) && (b.Some? ==> First(a) != b.value[0] && |b.value| == 1)
    requires IsDigit(First(a)) && (if b.Some? then IndexOf(b.value[0]) else BASE) - IndexOf(First(a)) == 1
    requires IsLow(Tail(a)) && rest == Midpoint(Tail(a), None) && IsBetween(Tail(a), rest, None)
    requires |rest| <= |Tail(a)| + 1
    ensures IsBetween(a, Midpoint(a, b), b) && |Midpoint(a, b)| <= Longer(a, b) + 1
  {
    BelowTop(a, b, rest);
    assert Midpoint(a, b) == [First(a)] + rest;
  }

  /** A bound of several digits has its first digit alone below it. */
  lemma OwnFirstDigit(a: string, b: string)
    requires IsRange(a, Some(b)) && |b| > 1 && IsDigit(First(a)) && IndexOf(First(a)) < IndexOf(b[0])
    ensures IsBetween(a, [b[0]], Some(b))
  {
    DigitsInOrder(First(a), b[0]);
    assert [b[0]][1..] == "";
  }

  lemma SingleDigitBetween(a: string, b: Option<string>, d: int)
    requires IsRange(a, b) && IsDigit(First(a)) && IndexOf(First(a)) < d < BASE
    requires b.Some? ==> d < IndexOf(b.value[0])
    ensures IsBetween(a, [DigitAt(d)], b)
  {
    IndexOfDigitAt(d);
    DigitsInOrder(First(a), DigitAt(d));
    DigitsInOrder('0', DigitAt(d));
    if b.Some? { DigitsInOrder(DigitAt(d), b.value[0]); }
  }

  /** A longer key under `a`'s own first digit: above `a`, and below a bound with a higher first digit. */
  lemma BelowTop(a: string, b: Option<string>, rest: string)
    requires IsRange(a, b) && IsDigit(First(a)) && IsValidKey(rest) && Less(Tail(a), rest)
    requires b.Some? ==> IndexOf(First(a)) < IndexOf(b.value[0])
    ensures IsBetween(a, [First(a)] + rest, b)
  {
    PrependIsValid(First(a), rest);
    LessPrepended(First(a), Tail(a), rest);
    assert a != "" ==> a == [First(a)] + Tail(a);
    if b.Some? { DigitsInOrder(First(a), b.value[0]); }
  }

  /** The midpoint, its shared leading digits passed over in one scan. */
  method MakeMidpoint(a: string, b: Option<string>) returns (m: string)
    requires IsRange(a, b)
    ensures m == Midpoint(a, b)
    decreases |a| + (if b.Some? then |b.value| else 0)
  {
    if b.Some? {
      var shared := "";
      var n := 0;
      var x, y := a, b.value;
      while First(x) == y[0]
        invariant n == |shared| <= |b.value| && shared == b.value[..n]
        invariant x == Drop(a, n) && y == b.value[n..]
        invariant IsRange(x, Some(y))
        invariant Midpoint(a, b) == shared + Midpoint(x, Some(y))
        decreases |y|
      {
        ScanOne(a, b.value, n, x, y);
        shared := shared + [y[0]];
        x, y := Tail(x), y[1..];
        n := n + 1;
      }
      if n > 0 {
        var rest := MakeMidpoint(x, Some(y));
        return shared + rest;
      }
      assert shared == "" && x == a && y == b.value;
    }
    TailIsLow(a);
    var low := IndexOf(First(a));
    var high := if b.Some? then IndexOf(b.value[0]) else BASE;
    if high - low > 1 {
      return [DigitAt((low + high + 1) / 2)];
    }
    if b.Some? && |b.value| > 1 {
      return b.value[..1];
    }
    var rest := MakeMidpoint(Tail(a), None);
    return [DigitAt(low)] + rest;
  }

  function Drop(a: string, n: nat): string {
    if n <= |a| then a[n..] else ""
  }

  lemma ScanOne(a: string, b: string, n: nat, x: string, y: string)
    requires n <= |b| && x == Drop(a, n) && y == b[n..] && IsRange(x, Some(y)) && First(x) == y[0]
    ensures |y| > 1 && IsRange(Tail(x), Some(y[1..]))
    ensures Tail(x) == Drop(a, n + 1) && y[1..] == b[n + 1..] && b[..n + 1] == b[..n] + [y[0]]
    ensures forall s: string :: s + Midpoint(x, Some(y)) == s + [y[0]] + Midpoint(Tail(x), Some(y[1..]))
  {
    RangeOfTails(x, y);
  }

  // ---- Many keys at once ----

  ghost predicate Ascending(keys: seq<string>) {
    forall i, j | 0 <= i < j < |keys| :: Less(keys[i], keys[j])
  }

  /** Keys made in a range: valid, in order, and inside it. */
  ghost predicate AreBetween(a: string, keys: seq<string>, b: Option<string>) {
    Ascending(keys) && forall i | 0 <= i < |keys| :: IsBetween(a, keys[i], b)
  }

  lemma MidpointRanges(a: string, b: Option<string>, mid: string)
    requires IsRange(a, b) && mid == Midpoint(a, b)
    ensures IsRange(a, Some(mid)) && IsRange(mid, b)
  {
    MidpointHolds(a, b);
  }

  /** `n` keys spread evenly through a range, halving it each time. */
  function Spread(a: string, b: Option<string>, n: nat): (keys: seq<string>)
    requires IsRange(a, b)
    ensures |keys| == n
    decreases n
  {
    if n == 0 then []
    else
      var mid := Midpoint(a, b);
      MidpointRanges(a, b, mid);
      var left := (n - 1) / 2;
      Spread(a, Some(mid), left) + [mid] + Spread(mid, b, n - 1 - left)
  }

  /** How many bits `n` takes. */
  function BitLength(n: nat): nat {
    if n == 0 then 0 else 1 + BitLength(n / 2)
  }

  function Pow2(n: nat): nat {
    if n == 0 then 1 else 2 * Pow2(n - 1)
  }

  /** As many bits as `n` has: `n` has no more, and needs them all. */
  lemma {:induction false} BitLengthExactly(n: nat)
    ensures n < Pow2(BitLength(n)) && (n > 0 ==> BitLength(n) > 0 && Pow2(BitLength(n) - 1) <= n)
  {
    if n > 1 { BitLengthExactly(n / 2); }
  }

  lemma {:induction false} BitLengthGrows(m: nat, n: nat)
    requires m <= n
    ensures BitLength(m) <= BitLength(n)
  {
    if m > 0 { BitLengthGrows(m / 2, n / 2); }
  }

  lemma JoinBetween(a: string, left: seq<string>, mid: string, right: seq<string>, b: Option<string>)
    requires IsBetween(a, mid, b) && AreBetween(a, left, Some(mid)) && AreBetween(mid, right, b)
    ensures AreBetween(a, left + [mid] + right, b)
  {
    var all := left + [mid] + right;
    forall i | 0 <= i < |all|
      ensures IsBetween(a, all[i], b)
    {
      if i < |left| {
        assert IsBetween(a, left[i], Some(mid));
        if b.Some? { LessTransitive(left[i], mid, b.value); }
      } else if i > |left| {
        assert IsBetween(mid, right[i - |left| - 1], b);
        LessTransitive(a, mid, all[i]);
      }
    }
    forall i, j | 0 <= i < j < |all|
      ensures Less(all[i], all[j])
    {
      assert i < |left| ==> IsBetween(a, left[i], Some(mid));
      assert j > |left| ==> IsBetween(mid, right[j - |left| - 1], b);
      if i < |left| < j { LessTransitive(all[i], mid, all[j]); }
    }
  }

  lemma {:induction false} SpreadInOrder(a: string, b: Option<string>, n: nat)
    requires IsRange(a, b)
    ensures AreBetween(a, Spread(a, b, n), b)
    decreases n
  {
    if n > 0 {
      MidpointHalves(a, b);
      var mid, left := Midpoint(a, b), (n - 1) / 2;
      SpreadInOrder(a, Some(mid), left);
      SpreadInOrder(mid, b, n - 1 - left);
      JoinBetween(a, Spread(a, Some(mid), left), mid, Spread(mid, b, n - 1 - left), b);
    }
  }

  /** `n` keys, in order, inside the range. */
  lemma SpreadBetween(a: string, b: Option<string>, n: nat)
    requires IsRange(a, b)
    ensures |Spread(a, b, n)| == n && AreBetween(a, Spread(a, b, n), b)
  {
    SpreadInOrder(a, b, n);
  }

  /** Each key is at most one digit longer per halving. */
  lemma {:induction false} SpreadShort(a: string, b: Option<string>, n: nat)
    requires IsRange(a, b)
    ensures AreShort(Spread(a, b, n), Longer(a, b) + BitLength(n))
    decreases n
  {
    if n > 0 {
      MidpointHalves(a, b);
      var mid, left := Midpoint(a, b), (n - 1) / 2;
      SpreadShort(a, Some(mid), left);
      SpreadShort(mid, b, n - 1 - left);
      BitLengthGrows(left, n / 2);
      BitLengthGrows(n - 1 - left, n / 2);
      JoinShort(Spread(a, Some(mid), left), mid, Spread(mid, b, n - 1 - left), Longer(a, b) + BitLength(n));
    }
  }

  lemma MidpointHalves(a: string, b: Option<string>)
    requires IsRange(a, b)
    ensures var mid := Midpoint(a, b);
      && IsBetween(a, mid, b) && IsRange(a, Some(mid)) && IsRange(mid, b) && |mid| <= Longer(a, b) + 1
      && Longer(a, Some(mid)) <= Longer(a, b) + 1 && Longer(mid, b) <= Longer(a, b) + 1
  {
    MidpointHolds(a, b);
  }

  ghost predicate AreShort(keys: seq<string>, max: nat) {
    forall i | 0 <= i < |keys| :: |keys[i]| <= max
  }

  lemma JoinShort(left: seq<string>, mid: string, right: seq<string>, max: nat)
    requires AreShort(left, max) && |mid| <= max && AreShort(right, max)
    ensures AreShort(left + [mid] + right, max)
  {
  }

  /** The lower bound a caller's `lo` amounts to, and the upper one `hi` does: a range that is empty or
      inverted is open above. */
  function UsableLow(lo: string): string {
    if IsValidKey(lo) then lo else ""
  }

  function UsableHigh(lo: string, hi: Option<string>): Option<string> {
    if hi.Some? && IsValidKey(hi.value) && Less(UsableLow(lo), hi.value) then hi else None
  }

  /** A gap that keys can be made in. */
  datatype Gap = Gap(low: string, high: Option<string>)

  predicate IsGap(g: Gap) {
    IsRange(g.low, g.high)
  }

  /** The lower or the upper half of a gap. */
  function Half(g: Gap, lower: bool): (h: Gap)
    requires IsGap(g)
    ensures IsGap(h)
  {
    var m := Midpoint(g.low, g.high);
    MidpointHolds(g.low, g.high);
    if lower then Gap(g.low, Some(m)) else Gap(m, g.high)
  }

  /** The gap left by the draws from the `i`th on, each of which takes the lower or the upper half. */
  function Narrowed(g: Gap, drawsLow: nat -> bool, i: nat): (h: Gap)
    requires IsGap(g)
    ensures IsGap(h)
    decreases JITTER_BITS - i
  {
    if i >= JITTER_BITS then g else Narrowed(Half(g, drawsLow(i)), drawsLow, i + 1)
  }

  function UsableGap(lo: string, hi: Option<string>): (g: Gap)
    ensures IsGap(g)
  {
    Gap(UsableLow(lo), UsableHigh(lo, hi))
  }

  function KeysFor(lo: string, hi: Option<string>, n: nat, drawsLow: nat -> bool): seq<string> {
    var g := Narrowed(UsableGap(lo, hi), drawsLow, 0);
    Spread(g.low, g.high, n)
  }

  ghost predicate IsInside(inner: Gap, outer: Gap) {
    IsWithin(outer.low, outer.high, inner.low, inner.high)
  }

  lemma HalfHolds(g: Gap, lower: bool)
    requires IsGap(g)
    ensures var h := Half(g, lower); IsInside(h, g) && Longer(h.low, h.high) <= Longer(g.low, g.high) + 1
  {
    var m := Midpoint(g.low, g.high);
    MidpointHolds(g.low, g.high);
    Narrower(g.low, g.high, g.low, g.high, m);
  }

  lemma InsideTwice(a: Gap, b: Gap, c: Gap)
    requires IsInside(a, b) && IsInside(b, c)
    ensures IsInside(a, c)
  {
    if c.low != b.low && b.low != a.low { LessTransitive(c.low, b.low, a.low); }
    if c.high.Some? && b.high != c.high && a.high != b.high {
      LessTransitive(a.high.value, b.high.value, c.high.value);
    }
  }

  lemma {:induction false} NarrowedHolds(g: Gap, drawsLow: nat -> bool, i: nat)
    requires IsGap(g) && i <= JITTER_BITS
    ensures var h := Narrowed(g, drawsLow, i);
      IsInside(h, g) && Longer(h.low, h.high) <= Longer(g.low, g.high) + (JITTER_BITS - i)
    decreases JITTER_BITS - i
  {
    if i < JITTER_BITS {
      var half := Half(g, drawsLow(i));
      HalfHolds(g, drawsLow(i));
      NarrowedHolds(half, drawsLow, i + 1);
      InsideTwice(Narrowed(half, drawsLow, i + 1), half, g);
    }
  }

  /** The upper bound can be used: a key, and above the lower one, if that is a key. */
  predicate IsAbove(lo: string, hi: Option<string>) {
    hi.Some? && IsValidKey(hi.value) && Less(if IsValidKey(lo) then lo else "", hi.value)
  }

  /** The longer of the bounds that can be used. */
  function LongerBound(lo: string, hi: Option<string>): nat {
    var low := if IsValidKey(lo) then |lo| else 0;
    if IsAbove(lo, hi) && |hi.value| > low then |hi.value| else low
  }

  /** `n` ascending keys strictly between `lo` and `hi`, in a random sub-interval of the gap: whatever the
      random draws, `n` valid keys in order, above a valid `lo`, below a valid `hi` greater than it, and
      each at most the longer bound, four digits, and the bits of `n` long. */
  method KeysBetween(lo: string, hi: Option<string>, n: int, drawsLow: nat -> bool) returns (keys: seq<string>)
    ensures |keys| == if n <= 0 then 0 else n
    ensures forall i | 0 <= i < |keys| :: IsValidKey(keys[i])
    ensures forall i, j | 0 <= i < j < |keys| :: Less(keys[i], keys[j])
    ensures IsValidKey(lo) ==> forall i | 0 <= i < |keys| :: Less(lo, keys[i])
    ensures hi.Some? && IsValidKey(hi.value) && Less(if IsValidKey(lo) then lo else "", hi.value) ==>
      forall i | 0 <= i < |keys| :: Less(keys[i], hi.value)
    ensures forall i | 0 <= i < |keys| :: |keys[i]| <= LongerBound(lo, hi) + 4 + BitLength(n)
    ensures n > 0 ==> keys == KeysFor(lo, hi, n, drawsLow)
  {
    if n <= 0 {
      return [];
    }
    var from := UsableGap(lo, hi);
    var g := NarrowGap(from, drawsLow, Narrowed(from, drawsLow, 0));
    keys := Spread(g.low, g.high, n);
    KeysHold(lo, hi, n, drawsLow, keys);
  }

  /** The draws from the `i`th on take `g` to `to`. */
  ghost predicate LeadsTo(g: Gap, drawsLow: nat -> bool, i: nat, to: Gap) {
    IsGap(g) && Narrowed(g, drawsLow, i) == to
  }

  lemma OneDraw(g: Gap, drawsLow: nat -> bool, i: nat, to: Gap)
    requires i < JITTER_BITS && LeadsTo(g, drawsLow, i, to)
    ensures LeadsTo(Half(g, drawsLow(i)), drawsLow, i + 1, to)
  {
  }

  lemma AllDrawn(g: Gap, drawsLow: nat -> bool, i: nat, to: Gap)
    requires i >= JITTER_BITS && LeadsTo(g, drawsLow, i, to)
    ensures g == to
  {
  }

  /** One draw's half. */
  method TakeHalf(g: Gap, lower: bool) returns (h: Gap)
    requires IsGap(g)
    ensures h == Half(g, lower)
  {
    var m := MakeMidpoint(g.low, g.high);
    h := if lower then Gap(g.low, Some(m)) else Gap(m, g.high);
  }

  /** The gap narrowed draw by draw. */
  method NarrowGap(from: Gap, drawsLow: nat -> bool, ghost to: Gap) returns (g: Gap)
    requires LeadsTo(from, drawsLow, 0, to)
    ensures g == to
  {
    g := from;
    var i := 0;
    while i < JITTER_BITS
      invariant LeadsTo(g, drawsLow, i, to)
    {
      OneDraw(g, drawsLow, i, to);
      g := TakeHalf(g, drawsLow(i));
      i := i + 1;
    }
    AllDrawn(g, drawsLow, i, to);
  }

  lemma KeysHold(lo: string, hi: Option<string>, n: nat, drawsLow: nat -> bool, keys: seq<string>)
    requires keys == KeysFor(lo, hi, n, drawsLow)
    ensures |keys| == n && AreBetween(UsableLow(lo), keys, UsableHigh(lo, hi))
    ensures AreShort(keys, Longer(UsableLow(lo), UsableHigh(lo, hi)) + JITTER_BITS + BitLength(n))
  {
    var g := UsableGap(lo, hi);
    var h := Narrowed(g, drawsLow, 0);
    NarrowedHolds(g, drawsLow, 0);
    SpreadBetween(h.low, h.high, n);
    SpreadShort(h.low, h.high, n);
    Widen(g.low, g.high, h.low, h.high, keys);
  }

  // ---- Different draws ----

  ghost predicate IsIn(g: Gap, k: string) {
    IsBetween(g.low, k, g.high)
  }

  lemma StaysIn(inner: Gap, outer: Gap, k: string)
    requires IsInside(inner, outer) && IsIn(inner, k)
    ensures IsIn(outer, k)
  {
    Widen(outer.low, outer.high, inner.low, inner.high, [k]);
    assert [k][0] == k && IsBetween(outer.low, [k][0], outer.high);
  }

  /** What is in the lower half is below what is in the upper. */
  lemma HalvesApart(g: Gap, x: string, y: string)
    requires IsGap(g) && IsIn(Half(g, true), x) && IsIn(Half(g, false), y)
    ensures x != y
  {
    LessTransitive(x, Midpoint(g.low, g.high), y);
    LessIrreflexive(x);
  }

  lemma {:induction false} LessIrreflexive(a: string)
    ensures !Less(a, a)
  {
    if a != "" { LessIrreflexive(a[1..]); }
  }

  lemma {:induction false} GapsApart(g: Gap, d: nat -> bool, e: nat -> bool, i: nat, x: string, y: string)
    requires IsGap(g) && i <= 4 && (exists k | i <= k < 4 :: d(k) != e(k))
    requires IsIn(Narrowed(g, d, i), x) && IsIn(Narrowed(g, e, i), y)
    ensures x != y
    decreases 4 - i
  {
    if d(i) == e(i) {
      var k :| i <= k < 4 && d(k) != e(k);
      assert i + 1 <= k;
      assert Narrowed(g, e, i) == Narrowed(Half(g, d(i)), e, i + 1);
      GapsApart(Half(g, d(i)), d, e, i + 1, x, y);
    } else {
      InHalf(g, d, i, x);
      InHalf(g, e, i, y);
      if d(i) { HalvesApart(g, x, y); } else { HalvesApart(g, y, x); }
    }
  }

  lemma InHalf(g: Gap, d: nat -> bool, i: nat, x: string)
    requires IsGap(g) && i < 4 && IsIn(Narrowed(g, d, i), x)
    ensures IsIn(Half(g, d(i)), x)
  {
    var h := Half(g, d(i));
    NarrowedHolds(h, d, i + 1);
    StaysIn(Narrowed(h, d, i + 1), h, x);
  }

  /** Two that fill one gap at once, and whose four draws are not all the same, make no key alike. */
  lemma DrawsApart(lo: string, hi: Option<string>, n: nat, m: nat, d: nat -> bool, e: nat -> bool, i: nat, j: nat)
    requires exists k | 0 <= k < 4 :: d(k) != e(k)
    requires i < |KeysFor(lo, hi, n, d)| && j < |KeysFor(lo, hi, m, e)|
    ensures KeysFor(lo, hi, n, d)[i] != KeysFor(lo, hi, m, e)[j]
  {
    var g := UsableGap(lo, hi);
    KeyIsIn(Narrowed(g, d, 0), n, i);
    KeyIsIn(Narrowed(g, e, 0), m, j);
    GapsApart(g, d, e, 0, KeysFor(lo, hi, n, d)[i], KeysFor(lo, hi, m, e)[j]);
  }

  lemma KeyIsIn(g: Gap, n: nat, i: nat)
    requires IsGap(g) && i < n
    ensures IsIn(g, Spread(g.low, g.high, n)[i])
  {
    SpreadBetween(g.low, g.high, n);
  }

  /** The range from `a` to `b` lies in the one from `low` to `high`. */
  ghost predicate IsWithin(low: string, high: Option<string>, a: string, b: Option<string>) {
    && (a == low || Less(low, a))
    && (high.Some? ==> b.Some? && (b == high || Less(b.value, high.value)))
  }

  lemma Narrower(low: string, high: Option<string>, a: string, b: Option<string>, m: string)
    requires IsWithin(low, high, a, b) && Less(a, m) && (b.Some? ==> Less(m, b.value))
    ensures IsWithin(low, high, a, Some(m)) && IsWithin(low, high, m, b)
  {
    if a != low { LessTransitive(low, a, m); }
    if high.Some? && b != high { LessTransitive(m, b.value, high.value); }
  }

  lemma Widen(low: string, high: Option<string>, a: string, b: Option<string>, keys: seq<string>)
    requires IsWithin(low, high, a, b) && AreBetween(a, keys, b)
    ensures AreBetween(low, keys, high)
  {
    forall i | 0 <= i < |keys|
      ensures IsBetween(low, keys[i], high)
    {
      assert IsBetween(a, keys[i], b);
      if a != low { LessTransitive(low, a, keys[i]); }
      if high.Some? && b != high { LessTransitive(keys[i], b.value, high.value); }
    }
  }
}
