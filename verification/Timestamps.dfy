/** Timestamps as the SQL store compares them: by their text
    (actenon/replay/dbapi.py, actenon/models/contracts.py). */
module Timestamps {
  import opened Ordering
  import opened CanonicalJson

  /** Times are whole microseconds. */
  const SECOND := 1_000_000

  function Padded(n: nat, x: nat): (s: string)
    ensures |s| == n
  {
    if n == 0 then "" else Padded(n - 1, x / 10) + [Digit(x % 10)]
  }

  /** isoformat leaves the fraction out when it is zero. */
  function Tail(fraction: nat): (s: string) {
    (if fraction == 0 then "" else "." + Padded(6, fraction)) + "Z"
  }

  /** `seconds` writes a time up to its seconds, `YYYY-MM-DDTHH:MM:SS`. */
  function Text(seconds: int -> string, t: int): string { seconds(t / SECOND) + Tail(t % SECOND) }

  /** Within the years of four digits that text has one length and grows with time. */
  ghost predicate Steady(seconds: int -> string, limit: int) {
    forall a, b :: 0 <= a < b < limit ==> |seconds(a)| == |seconds(b)| && Less(seconds(a), seconds(b))
  }

  /** The text order: within one second a whole time comes last. */
  predicate TextLe(a: int, b: int) {
    if a / SECOND != b / SECOND then a < b
    else if a % SECOND == 0 then b % SECOND == 0
    else b % SECOND == 0 || a <= b
  }

  /** It is the order of time except between a whole and a broken time of one second. */
  lemma TextLeIff(a: int, b: int)
    ensures (TextLe(a, b) <==> a <= b) <==>
            !(a / SECOND == b / SECOND && (a % SECOND == 0) != (b % SECOND == 0))
  {
  }

  lemma {:induction false} LessPrefix(p: string, q: string, x: string, y: string)
    requires |p| == |q|
    ensures Less(p + x, q + y) <==> Less(p, q) || (p == q && Less(x, y))
    ensures p + x == q + y <==> p == q && x == y
  {
    if p == [] {
      assert p + x == x && q + y == y;
    } else {
      assert (p + x)[1..] == p[1..] + x && (q + y)[1..] == q[1..] + y;
      assert p == [p[0]] + p[1..] && q == [q[0]] + q[1..];
      LessPrefix(p[1..], q[1..], x, y);
      if p + x == q + y {
        assert (p + x)[0] == (q + y)[0] && (p + x)[1..] == (q + y)[1..];
      }
    }
  }

  function Pow10(n: nat): nat { if n == 0 then 1 else 10 * Pow10(n - 1) }

  lemma {:induction false} PaddedOrder(n: nat, x: nat, y: nat)
    requires x < Pow10(n) && y < Pow10(n)
    ensures Less(Padded(n, x), Padded(n, y)) <==> x < y
    ensures Padded(n, x) == Padded(n, y) <==> x == y
  {
    if n > 0 {
      PaddedOrder(n - 1, x / 10, y / 10);
      LessPrefix(Padded(n - 1, x / 10), Padded(n - 1, y / 10), [Digit(x % 10)], [Digit(y % 10)]);
    }
  }

  lemma TailOrder(f: nat, g: nat)
    requires f < SECOND && g < SECOND
    ensures (Tail(f) == Tail(g) || Less(Tail(f), Tail(g))) <==>
            if f == 0 then g == 0 else g == 0 || f <= g
  {
    hide Padded;
    if f != 0 && g != 0 {
      assert Pow10(6) == SECOND;
      PaddedOrder(6, f, g);
      LessPrefix("." + Padded(6, f), "." + Padded(6, g), "Z", "Z");
      LessPrefix(".", ".", Padded(6, f), Padded(6, g));
    }
  }

  /** The store's comparison of two texts is TextLe of the two times. */
  lemma TextOrder(seconds: int -> string, limit: int, a: int, b: int)
    requires Steady(seconds, limit) && 0 <= a / SECOND < limit && 0 <= b / SECOND < limit
    ensures (Text(seconds, a) == Text(seconds, b) || Less(Text(seconds, a), Text(seconds, b))) <==> TextLe(a, b)
  {
    hide Tail;
    var s, t := a / SECOND, b / SECOND;
    LessPrefix(seconds(s), seconds(t), Tail(a % SECOND), Tail(b % SECOND));
    TailOrder(a % SECOND, b % SECOND);
    LessTotal(seconds(s), seconds(t));
    LessTotal(seconds(s), seconds(s));
  }
}
