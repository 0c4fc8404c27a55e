/** Snapshot tags, backupspec/tags.go: "sm_" + 14 digits + "UTC".

  The time of a tag is modelled by the number that its digits write, year first, which orders valid dates
  as their instants do.  A tag whose fields are no date has no time.
*/
module Tags {
  import opened Wrappers

  predicate IsDigit(c: char) {
    '0' <= c <= '9'
  }

  predicate AllDigits(s: string) {
    forall i :: 0 <= i < |s| ==> IsDigit(s[i])
  }

  /** The tag regular expression. */
  predicate IsSnapshotTag(tag: string) {
    |tag| == 20 && tag[..3] == "sm_" && AllDigits(tag[3..17]) && tag[17..] == "UTC"
  }

  function Value(s: string): (n: nat)
    requires AllDigits(s)
  {
    if s == [] then 0 else 10 * Value(s[..|s|-1]) + (s[|s|-1] as int - '0' as int)
  }

  function Pow10(w: nat): (p: nat)
    ensures p >= 1
  {
    if w == 0 then 1 else 10 * Pow10(w - 1)
  }

  function DaysIn(year: nat, month: nat): nat {
    if month == 2 then
      if year % 4 == 0 && (year % 100 != 0 || year % 400 == 0) then 29 else 28
    else if month in {4, 6, 9, 11} then 30
    else 31
  }

  /** The fields of yyyymmddhhmmss are a date and a time of day. */
  predicate ValidDate(n: nat) {
    var year, month, day := n / 10_000_000_000, n / 100_000_000 % 100, n / 1_000_000 % 100;
    var hour, minute, second := n / 10_000 % 100, n / 100 % 100, n % 100;
    1 <= month <= 12 && 1 <= day <= DaysIn(year, month) && hour < 24 && minute < 60 && second < 60
  }

  type TagTime = n: nat | n < 100_000_000_000_000 && ValidDate(n) witness 20230114183231

  lemma {:induction false} ValueBound(s: string)
    requires AllDigits(s)
    ensures Value(s) < Pow10(|s|)
  {
    if s != [] {
      ValueBound(s[..|s|-1]);
    }
  }

  lemma Pow10Of14()
    ensures Pow10(14) == 100_000_000_000_000
  {
    assert Pow10(4) == 10_000;
    assert Pow10(8) == 100_000_000;
    assert Pow10(12) == 1_000_000_000_000;
  }

  /** SnapshotTagTime: None stands for its error. */
  function SnapshotTagTime(tag: string): Option<TagTime> {
    if !IsSnapshotTag(tag) then None else
      var n := Value(tag[3..17]);
      assert n < 100_000_000_000_000 by { ValueBound(tag[3..17]); Pow10Of14(); }
      if ValidDate(n) then Some(n) else None
  }

  /** The decimal digits of `n`, padded to width `w`. */
  function Digits(n: nat, w: nat): (s: string)
    ensures |s| == w && AllDigits(s)
  {
    if w == 0 then [] else Digits(n / 10, w - 1) + [('0' as int + n % 10) as char]
  }

  function SnapshotTagAt(t: TagTime): string {
    "sm_" + Digits(t, 14) + "UTC"
  }

  lemma {:induction false} ValueOfDigits(n: nat, w: nat)
    requires n < Pow10(w)
    ensures Value(Digits(n, w)) == n
  {
    if w > 0 {
      ValueOfDigits(n / 10, w - 1);
      var s := Digits(n, w);
      assert s[..w-1] == Digits(n / 10, w - 1);
    }
  }

  /** The tag of a time is a tag, and gives the time back. */
  lemma TagOfTime(t: TagTime)
    ensures IsSnapshotTag(SnapshotTagAt(t))
    ensures SnapshotTagTime(SnapshotTagAt(t)) == Some(t)
  {
    var tag := SnapshotTagAt(t);
    Pow10Of14();
    assert tag[3..17] == Digits(t, 14);
    assert tag[..3] == "sm_" && tag[17..] == "UTC";
    ValueOfDigits(t, 14);
  }

  // ---------- The order of tags ----------

  /** The order of strings in Go. */
  predicate Less(a: string, b: string) {
    b != [] && (a == [] || a[0] < b[0] || (a[0] == b[0] && Less(a[1..], b[1..])))
  }

  function Digit(c: char): int {
    c as int - '0' as int
  }

  lemma ValueOfLast(s: string)
    requires AllDigits(s) && |s| > 0
    ensures Value(s) == 10 * Value(s[..|s|-1]) + Digit(s[|s|-1])
  {
  }

  lemma TenTimes(d: int, p: int)
    ensures 10 * (d * p) == d * (10 * p)
  {
  }

  lemma {:induction false} ValueOfFirst(s: string)
    requires AllDigits(s) && |s| > 0
    ensures Value(s) == Digit(s[0]) * Pow10(|s| - 1) + Value(s[1..])
  {
    var n := |s| - 1;
    ValueOfLast(s);
    if n > 0 {
      ValueOfFirst(s[..n]);
      ValueOfLast(s[1..]);
      assert s[..n][1..] == s[1..][..n-1];
      TenTimes(Digit(s[0]), Pow10(n - 1));
    }
  }

  lemma LeadingDigit(x: int, y: int, p: int, v: int, w: int)
    requires 0 <= v < p && 0 <= w < p && x < y
    ensures x * p + v < y * p + w
  {
    assert (x + 1) * p <= y * p;
  }

  lemma {:induction false} LessIsSmaller(a: string, b: string)
    requires AllDigits(a) && AllDigits(b) && |a| == |b|
    ensures Less(a, b) <==> Value(a) < Value(b)
  {
    if |a| > 0 {
      LessIsSmaller(a[1..], b[1..]);
      var v, w := Value(a[1..]), Value(b[1..]);
      FirstDigits(a, b, v, w);
    }
  }

  lemma FirstDigits(a: string, b: string, v: nat, w: nat)
    requires AllDigits(a) && AllDigits(b) && |a| == |b| > 0
    requires v == Value(a[1..]) && w == Value(b[1..])
    ensures Value(a) < Value(b) <==> Digit(a[0]) < Digit(b[0]) || (Digit(a[0]) == Digit(b[0]) && v < w)
  {
    ValueOfFirst(a);
    ValueOfFirst(b);
    ValueBound(a[1..]);
    ValueBound(b[1..]);
    var p, x, y := Pow10(|a| - 1), Digit(a[0]), Digit(b[0]);
    if x < y {
      LeadingDigit(x, y, p, v, w);
    } else if y < x {
      LeadingDigit(y, x, p, w, v);
    }
  }

  lemma {:induction false} LessBehindPrefix(p: string, a: string, b: string)
    ensures Less(p + a, p + b) <==> Less(a, b)
  {
    if p == [] {
      assert p + a == a && p + b == b;
    } else {
      assert (p + a)[1..] == p[1..] + a && (p + b)[1..] == p[1..] + b;
      LessBehindPrefix(p[1..], a, b);
    }
  }

  lemma {:induction false} LessBeforeSuffix(a: string, b: string, q: string)
    requires |a| == |b|
    ensures Less(a + q, b + q) <==> Less(a, b)
  {
    if a == [] {
      assert a + q == q && b + q == q;
      NotLess(q);
    } else {
      assert (a + q)[1..] == a[1..] + q && (b + q)[1..] == b[1..] + q;
      LessBeforeSuffix(a[1..], b[1..], q);
    }
  }

  lemma {:induction false} NotLess(q: string)
    ensures !Less(q, q)
  {
    if q != [] {
      NotLess(q[1..]);
    }
  }

  lemma {:induction false} SameValueSameDigits(a: string, b: string)
    requires AllDigits(a) && AllDigits(b) && |a| == |b| && Value(a) == Value(b)
    ensures a == b
  {
    if |a| > 0 {
      var n := |a| - 1;
      SameValueSameDigits(a[..n], b[..n]);
      assert a == a[..n] + [a[n]] && b == b[..n] + [b[n]];
    }
  }

  lemma TagParts(tag: string)
    requires IsSnapshotTag(tag)
    ensures tag == "sm_" + (tag[3..17] + "UTC")
  {
  }

  /** The order of tags as strings is the order of their times, and tags of one time are equal. */
  lemma TagOrder(a: string, b: string)
    requires SnapshotTagTime(a).Some? && SnapshotTagTime(b).Some?
    ensures Less(a, b) <==> SnapshotTagTime(a).value < SnapshotTagTime(b).value
    ensures SnapshotTagTime(a) == SnapshotTagTime(b) ==> a == b
  {
    var x, y := a[3..17], b[3..17];
    TagParts(a);
    TagParts(b);
    LessBehindPrefix("sm_", x + "UTC", y + "UTC");
    LessBeforeSuffix(x, y, "UTC");
    LessIsSmaller(x, y);
    if Value(x) == Value(y) {
      SameValueSameDigits(x, y);
    }
  }

  /** And a tag that has a time is the tag of that time. */
  lemma TimeOfTag(tag: string)
    requires SnapshotTagTime(tag).Some?
    ensures SnapshotTagAt(SnapshotTagTime(tag).value) == tag
  {
    var t := SnapshotTagTime(tag).value;
    TagOfTime(t);
    TagOrder(SnapshotTagAt(t), tag);
  }

  /** 29 February is a date in leap years only. */
  lemma LeapDays()
    ensures ValidDate(20240229000000) && ValidDate(20000229000000)
    ensures !ValidDate(20230229000000) && !ValidDate(19000229000000)
  {
  }

  /** A tag begins with sm_, ends in UTC, and has fourteen digits between; a tag of other form has no time. */
  lemma TagForm(tag: string)
    ensures IsSnapshotTag(tag) <==>
              exists digits :: |digits| == 14 && AllDigits(digits) && tag == "sm_" + digits + "UTC"
    ensures SnapshotTagTime(tag).Some? ==> IsSnapshotTag(tag)
  {
    if IsSnapshotTag(tag) {
      assert tag == "sm_" + tag[3..17] + "UTC";
    }
    forall digits | |digits| == 14 && AllDigits(digits) && tag == "sm_" + digits + "UTC" ensures IsSnapshotTag(tag) {
      assert tag[..3] == "sm_" && tag[17..] == "UTC" && tag[3..17] == digits;
    }
  }
}
