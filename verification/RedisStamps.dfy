/** Sorted-set members "<created_at>:<job_id>": their byte order is the order of the stamps,
    and the job id can be read back. */
module RedisStamps {

  function Digit(d: nat): (c: char)
    requires d < 10
    ensures c != ':'
  {
    ('0' as int + d) as char
  }

  function Decimal(n: nat): string {
    if n < 10 then [Digit(n)] else Decimal(n / 10) + [Digit(n % 10)]
  }

  const MICROS := 1_000_000

  /** `f"{created_at:.6f}"` for a time in microseconds. */
  function Stamp(t: nat): string {
    Decimal(t / MICROS) + "." + Decimal(MICROS + t % MICROS)[1..]
  }

  function Member(t: nat, id: string): string { Stamp(t) + ":" + id }

  /** Ten digits before the point, as every clock reading from 2001 to 2286 has. */
  predicate FixedWidth(t: nat) { |Decimal(t / MICROS)| == 10 }

  /** 10 to the n. */
  function Ten(n: nat): (p: nat)
    ensures p >= 1
  {
    if n == 0 then 1 else 10 * Ten(n - 1)
  }

  lemma {:induction false} DecimalWidth(n: nat, w: nat)
    ensures |Decimal(n)| == w + 1 <==> (w == 0 || Ten(w) <= n) && n < Ten(w + 1)
  {
    if w > 0 && n >= 10 {
      DecimalWidth(n / 10, w - 1);
      assert Ten(w) == 10 * Ten(w - 1) && Ten(w + 1) == 10 * Ten(w);
    } else if n >= 10 {
      assert |Decimal(n / 10)| >= 1 by { DecimalIsNotEmpty(n / 10); }
    }
  }

  lemma {:induction false} DecimalIsNotEmpty(n: nat)
    ensures Decimal(n) != ""
  {
  }

  /** From 2001-09-09 to 2286-11-20, in microseconds since 1970. */
  lemma FixedWidthIff(t: nat)
    ensures FixedWidth(t) <==> 1_000_000_000_000_000 <= t < 10_000_000_000_000_000
  {
    DecimalWidth(t / MICROS, 9);
    assert Ten(5) == 100_000 && Ten(10) == 100_000 * Ten(5);
    assert Ten(9) == 1_000_000_000 && Ten(10) == 10_000_000_000;
  }

  /** Redis compares members byte by byte. */
  predicate LexLess(a: string, b: string) {
    if b == [] then false
    else if a == [] then true
    else a[0] < b[0] || (a[0] == b[0] && LexLess(a[1..], b[1..]))
  }

  /** The text after the first colon. */
  function AfterColon(s: string): string {
    if s == [] then [] else if s[0] == ':' then s[1..] else AfterColon(s[1..])
  }

  lemma {:induction false} LexTotal(a: string, b: string)
    ensures a == b || LexLess(a, b) || LexLess(b, a)
    ensures !(LexLess(a, b) && LexLess(b, a)) && !LexLess(a, a)
  {
    if a != [] && b != [] {
      LexTotal(a[1..], b[1..]);
      if a[0] == b[0] && a[1..] == b[1..] { assert a == [a[0]] + a[1..] && b == [b[0]] + b[1..]; }
    }
    if a != [] { LexTotal(a[1..], a[1..]); }
  }

  lemma {:induction false} LexTransitive(a: string, b: string, c: string)
    requires LexLess(a, b) && LexLess(b, c)
    ensures LexLess(a, c)
  {
    if a != [] && a[0] == b[0] == c[0] { LexTransitive(a[1..], b[1..], c[1..]); }
  }

  lemma {:induction false} LexExtend(a: string, b: string, x: string, y: string)
    requires |a| == |b| && LexLess(a, b)
    ensures LexLess(a + x, b + y)
  {
    assert (a + x)[0] == a[0] && (b + y)[0] == b[0];
    if a[0] == b[0] {
      assert (a + x)[1..] == a[1..] + x && (b + y)[1..] == b[1..] + y;
      LexExtend(a[1..], b[1..], x, y);
    }
  }

  lemma {:induction false} LexPrefix(p: string, x: string, y: string)
    ensures LexLess(p + x, p + y) == LexLess(x, y)
  {
    if p == [] {
      assert p + x == x && p + y == y;
    } else {
      assert (p + x)[1..] == p[1..] + x && (p + y)[1..] == p[1..] + y;
      LexPrefix(p[1..], x, y);
    }
  }

  /** Among numbers of one width, byte order is numeric order. */
  lemma {:induction false} DecimalOrder(a: nat, b: nat)
    requires a < b && |Decimal(a)| == |Decimal(b)|
    ensures LexLess(Decimal(a), Decimal(b))
  {
    if a < 10 {
      assert b < 10;
    } else {
      var x, y := [Digit(a % 10)], [Digit(b % 10)];
      if a / 10 < b / 10 {
        DecimalOrder(a / 10, b / 10);
        LexExtend(Decimal(a / 10), Decimal(b / 10), x, y);
      } else {
        LexPrefix(Decimal(a / 10), x, y);
      }
    }
  }

  lemma {:induction false} LeadingOne(n: nat, p: nat, width: nat)
    requires p in [1, 10, 100, 1_000, 10_000, 100_000, 1_000_000] && p <= n < 2 * p
    requires width == (if p < 10 then 1 else if p < 100 then 2 else if p < 1_000 then 3
                       else if p < 10_000 then 4 else if p < 100_000 then 5 else if p < 1_000_000 then 6 else 7)
    ensures |Decimal(n)| == width && Decimal(n)[0] == '1'
    decreases n
  {
    if p > 1 { LeadingOne(n / 10, p / 10, width - 1); }
  }

  /** Older sorts first, whatever the ids. */
  lemma OlderSortsFirst(t: nat, u: nat, a: string, b: string)
    requires FixedWidth(t) && FixedWidth(u) && t < u
    ensures LexLess(Member(t, a), Member(u, b))
  {
    StampOrder(t, u);
    LexExtend(Stamp(t), Stamp(u), ":" + a, ":" + b);
    assert Member(t, a) == Stamp(t) + (":" + a) && Member(u, b) == Stamp(u) + (":" + b);
  }

  lemma StampOrder(t: nat, u: nat)
    requires FixedWidth(t) && FixedWidth(u) && t < u
    ensures |Stamp(t)| == |Stamp(u)| && LexLess(Stamp(t), Stamp(u))
  {
    var f, g := MICROS + t % MICROS, MICROS + u % MICROS;
    LeadingOne(f, 1_000_000, 7);
    LeadingOne(g, 1_000_000, 7);
    if t / MICROS < u / MICROS {
      WholeOrder(Decimal(t / MICROS), Decimal(u / MICROS), Decimal(f), Decimal(g), t / MICROS, u / MICROS);
    } else {
      DecimalOrder(f, g);
      LexPrefix(Decimal(t / MICROS) + ".", Decimal(f)[1..], Decimal(g)[1..]);
    }
  }

  lemma WholeOrder(s: string, r: string, f: string, g: string, a: nat, b: nat)
    requires a < b && s == Decimal(a) && r == Decimal(b) && |s| == |r| && f != [] && g != []
    ensures LexLess(s + "." + f[1..], r + "." + g[1..])
  {
    DecimalOrder(a, b);
    LexExtend(s, r, "." + f[1..], "." + g[1..]);
    assert s + "." + f[1..] == s + ("." + f[1..]) && r + "." + g[1..] == r + ("." + g[1..]);
  }

  lemma {:induction false} DecimalHasNoColon(n: nat)
    ensures ':' !in Decimal(n)
  {
    if n >= 10 { DecimalHasNoColon(n / 10); }
  }

  lemma {:induction false} AfterFirstColon(s: string, id: string)
    requires ':' !in s
    ensures AfterColon(s + ":" + id) == id
  {
    if s == [] {
      assert s + ":" + id == ":" + id && (":" + id)[1..] == id;
    } else {
      assert (s + ":" + id)[1..] == s[1..] + ":" + id;
      AfterFirstColon(s[1..], id);
    }
  }

  /** The claim script reads back the id that was written, even when it contains colons. */
  lemma IdRoundTrip(t: nat, id: string)
    ensures AfterColon(Member(t, id)) == id
  {
    DecimalHasNoColon(t / MICROS);
    DecimalHasNoColon(MICROS + t % MICROS);
    AfterFirstColon(Stamp(t), id);
  }
}
