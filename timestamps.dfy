/** Wall-clock instants and the `"%Y-%m-%d %H:%M:%S"` text every table of the
    database stores them as, together with the byte-wise text order SQLite
    sorts TEXT columns by.  The clock itself is outside the model: each
    operation receives the current instant as a parameter. */
module Timestamps {

  /** A calendar instant as `datetime.now()` yields it (to the second). */
  datatype DateTime = DateTime(year: int, month: int, day: int, hour: int, minute: int, second: int)

  /** The field ranges of a real instant; years before 1000 are excluded
      because `%Y` does not zero-pad them to four digits. */
  predicate ValidDateTime(d: DateTime) {
    1000 <= d.year <= 9999 && 1 <= d.month <= 12 && 1 <= d.day <= 31
    && 0 <= d.hour <= 23 && 0 <= d.minute <= 59 && 0 <= d.second <= 59
  }

  /** Chronological order: field by field, most significant first. */
  predicate NotAfter(a: DateTime, b: DateTime) {
    a.year < b.year || (a.year == b.year &&
    (a.month < b.month || (a.month == b.month &&
    (a.day < b.day || (a.day == b.day &&
    (a.hour < b.hour || (a.hour == b.hour &&
    (a.minute < b.minute || (a.minute == b.minute && a.second <= b.second)))))))))
  }

  // ---------------------------------------------------------------- text order

  /** SQLite's BINARY collation on text of code points below 128: `a` sorts
      at or before `b`. */
  predicate LexLe(a: string, b: string) {
    a == [] || (b != [] && (a[0] < b[0] || (a[0] == b[0] && LexLe(a[1..], b[1..]))))
  }

  lemma {:induction false} LexLeTotal(a: string, b: string)
    ensures LexLe(a, b) || LexLe(b, a)
  {
    if a != [] && b != [] && a[0] == b[0] {
      LexLeTotal(a[1..], b[1..]);
    }
  }

  lemma {:induction false} LexLeTrans(a: string, b: string, c: string)
    requires LexLe(a, b) && LexLe(b, c)
    ensures LexLe(a, c)
  {
    if a != [] && b != [] && c != [] && a[0] == b[0] && b[0] == c[0] {
      LexLeTrans(a[1..], b[1..], c[1..]);
    }
  }

  lemma {:induction false} LexLeAntisym(a: string, b: string)
    requires LexLe(a, b) && LexLe(b, a)
    ensures a == b
  {
    if a != [] && b != [] {
      LexLeAntisym(a[1..], b[1..]);
      assert a == [a[0]] + a[1..];
      assert b == [b[0]] + b[1..];
    }
  }

  lemma LexLeRefl(a: string)
    ensures LexLe(a, a)
  {
    LexLeTotal(a, a);
  }

  /** Comparing two texts whose first parts have equal length: the first
      parts decide unless they are equal. */
  lemma {:induction false} LexLeConcat(a1: string, a2: string, b1: string, b2: string)
    requires |a1| == |b1|
    ensures LexLe(a1 + a2, b1 + b2) <==> (a1 != b1 && LexLe(a1, b1)) || (a1 == b1 && LexLe(a2, b2))
  {
    if a1 == [] {
      assert a1 + a2 == a2 && b1 + b2 == b2;
    } else {
      assert (a1 + a2)[0] == a1[0] && (b1 + b2)[0] == b1[0];
      assert (a1 + a2)[1..] == a1[1..] + a2 && (b1 + b2)[1..] == b1[1..] + b2;
      LexLeConcat(a1[1..], a2, b1[1..], b2);
      if a1[0] == b1[0] {
        assert a1 == b1 <==> a1[1..] == b1[1..] by {
          assert a1 == [a1[0]] + a1[1..];
          assert b1 == [b1[0]] + b1[1..];
        }
      }
    }
  }

  // ---------------------------------------------------------------- fixed-width digits

  function Pow10(w: nat): (p: nat)
    ensures p >= 1
  {
    if w == 0 then 1 else 10 * Pow10(w - 1)
  }

  function Digit(d: int): (c: char)
    requires 0 <= d < 10
  {
    ('0' as int + d) as char
  }

  /** `x` written with exactly `w` decimal digits, zero-padded. */
  function Pad(x: nat, w: nat): (r: string)
    ensures |r| == w
  {
    if w == 0 then [] else Pad(x / 10, w - 1) + [Digit(x % 10)]
  }

  lemma DivBound(x: nat, w: nat)
    requires w >= 1 && x < Pow10(w)
    ensures x / 10 < Pow10(w - 1)
  {
  }

  /** Zero-padded numbers of one width sort as text exactly as they sort as
      numbers, and distinct numbers have distinct texts. */
  lemma {:induction false} PadOrder(x: nat, y: nat, w: nat)
    requires x < Pow10(w) && y < Pow10(w)
    ensures LexLe(Pad(x, w), Pad(y, w)) <==> x <= y
    ensures Pad(x, w) == Pad(y, w) <==> x == y
  {
    if w == 0 {
      assert x == 0 && y == 0;
    } else {
      DivBound(x, w);
      DivBound(y, w);
      PadOrder(x / 10, y / 10, w - 1);
      var px, py := Pad(x / 10, w - 1), Pad(y / 10, w - 1);
      var dx, dy := [Digit(x % 10)], [Digit(y % 10)];
      LexLeConcat(px, dx, py, dy);
      assert LexLe(dx, dy) <==> x % 10 <= y % 10;
      assert px + dx == py + dy <==> px == py && dx == dy by {
        if px + dx == py + dy {
          assert (px + dx)[..w - 1] == px && (py + dy)[..w - 1] == py;
          assert (px + dx)[w - 1] == dx[0] && (py + dy)[w - 1] == dy[0];
        }
      }
      assert x == 10 * (x / 10) + x % 10;
      assert y == 10 * (y / 10) + y % 10;
    }
  }

  /** `strftime("%Y-%m-%d %H:%M:%S")`, built right to left so that each
      fixed-width field heads the remainder. */
  function Format(d: DateTime): (s: string)
    requires ValidDateTime(d)
    ensures |s| == 19
  {
    Pad(d.year, 4) + ("-" + (Pad(d.month, 2) + ("-" + (Pad(d.day, 2) + (" " +
    (Pad(d.hour, 2) + (":" + (Pad(d.minute, 2) + (":" + Pad(d.second, 2))))))))))
  }

  /** Prefixing the same separator does not change the order. */
  lemma SeparatorOrder(sep: string, a: string, b: string)
    requires |sep| == 1
    ensures LexLe(sep + a, sep + b) <==> LexLe(a, b)
  {
    LexLeConcat(sep, a, sep, b);
  }

  /** Ordering the stored texts orders the instants: "YYYY-MM-DD HH:MM:SS"
      strings compare, character by character, exactly as the instants they
      spell compare in time. */
  lemma FormatOrder(a: DateTime, b: DateTime)
    requires ValidDateTime(a) && ValidDateTime(b)
    ensures LexLe(Format(a), Format(b)) <==> NotAfter(a, b)
  {
    assert Pow10(2) == 100 && Pow10(4) == 10000;
    PadOrder(a.second, b.second, 2);
    var s5a, s5b := Pad(a.second, 2), Pad(b.second, 2);
    SeparatorOrder(":", s5a, s5b);
    var s4a, s4b := ":" + s5a, ":" + s5b;
    PadOrder(a.minute, b.minute, 2);
    LexLeConcat(Pad(a.minute, 2), s4a, Pad(b.minute, 2), s4b);
    var s3a, s3b := ":" + (Pad(a.minute, 2) + s4a), ":" + (Pad(b.minute, 2) + s4b);
    SeparatorOrder(":", Pad(a.minute, 2) + s4a, Pad(b.minute, 2) + s4b);
    PadOrder(a.hour, b.hour, 2);
    LexLeConcat(Pad(a.hour, 2), s3a, Pad(b.hour, 2), s3b);
    var s2a, s2b := " " + (Pad(a.hour, 2) + s3a), " " + (Pad(b.hour, 2) + s3b);
    SeparatorOrder(" ", Pad(a.hour, 2) + s3a, Pad(b.hour, 2) + s3b);
    PadOrder(a.day, b.day, 2);
    LexLeConcat(Pad(a.day, 2), s2a, Pad(b.day, 2), s2b);
    var s1a, s1b := "-" + (Pad(a.day, 2) + s2a), "-" + (Pad(b.day, 2) + s2b);
    SeparatorOrder("-", Pad(a.day, 2) + s2a, Pad(b.day, 2) + s2b);
    PadOrder(a.month, b.month, 2);
    LexLeConcat(Pad(a.month, 2), s1a, Pad(b.month, 2), s1b);
    var s0a, s0b := "-" + (Pad(a.month, 2) + s1a), "-" + (Pad(b.month, 2) + s1b);
    SeparatorOrder("-", Pad(a.month, 2) + s1a, Pad(b.month, 2) + s1b);
    PadOrder(a.year, b.year, 4);
    LexLeConcat(Pad(a.year, 4), s0a, Pad(b.year, 4), s0b);
  }
}
