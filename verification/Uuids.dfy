/** The text of a UUID, as pkg/util/uuid and the driver's UUID type write and read it. */
module Uuids {
  import opened Wrappers

  type Hex = h: nat | h < 16

  /** 128 bits, as 32 hexadecimal digits. */
  type UUID = u: seq<Hex> | |u| == 32 witness Zeros(32)

  const Nil: UUID := Zeros(32)

  function Zeros(n: nat): (u: seq<Hex>)
    ensures |u| == n
  {
    if n == 0 then [] else Zeros(n - 1) + [0]
  }

  function HexChar(h: Hex): (c: char)
    ensures c != '-' && c != '/' && c != '_' && c != '.'
    ensures HexValue(c) == Some(h)
  {
    if h < 10 then ('0' as int + h) as char else ('a' as int + (h - 10)) as char
  }

  function HexValue(c: char): Option<Hex> {
    if '0' <= c <= '9' then Some(c as int - '0' as int)
    else if 'a' <= c <= 'f' then Some(c as int - 'a' as int + 10)
    else if 'A' <= c <= 'F' then Some(c as int - 'A' as int + 10)
    else None
  }

  /** The canonical text of the first `n` digits: groups of 8, 4, 4, 4 and 12. */
  function TextTo(u: UUID, n: nat): string
    requires n <= 32
  {
    if n == 0 then "" else
      TextTo(u, n - 1) + (if n - 1 in {8, 12, 16, 20} then "-" else "") + [HexChar(u[n-1])]
  }

  function Text(u: UUID): string {
    TextTo(u, 32)
  }

  lemma {:induction false} TextIsPlainTo(u: UUID, n: nat)
    requires n <= 32
    ensures |TextTo(u, n)| >= n && '/' !in TextTo(u, n) && '_' !in TextTo(u, n) && '.' !in TextTo(u, n)
  {
    if n > 0 {
      TextIsPlainTo(u, n - 1);
    }
  }

  lemma TextIsPlain(u: UUID)
    ensures Text(u) != "" && '/' !in Text(u) && '_' !in Text(u) && '.' !in Text(u)
  {
    TextIsPlainTo(u, 32);
  }

  /** The digits read from a text: at most 32, and dashes only behind an even number of digits. */
  function Read(s: string): Option<seq<Hex>> {
    if s == "" then Some([]) else Added(Read(s[..|s|-1]), s[|s|-1])
  }

  function Added(read: Option<seq<Hex>>, c: char): Option<seq<Hex>> {
    if read.None? then None
    else if c == '-' && |read.value| % 2 == 0 then read
    else if HexValue(c).Some? && |read.value| < 32 then Some(read.value + [HexValue(c).value])
    else None
  }

  function Parse(s: string): Option<UUID> {
    if Read(s).Some? && |Read(s).value| == 32 then Some(Read(s).value) else None
  }

  /** The characters that are no dashes. */
  function Undashed(s: string): string {
    if s == "" then "" else Undashed(s[..|s|-1]) + if s[|s|-1] == '-' then "" else [s[|s|-1]]
  }

  /** What reads as a UUID is its 32 digits in order, with dashes between. */
  lemma {:induction false} ReadIsDigits(s: string)
    requires Read(s).Some?
    ensures |Read(s).value| == |Undashed(s)|
    ensures forall k :: 0 <= k < |Undashed(s)| ==> HexValue(Undashed(s)[k]) == Some(Read(s).value[k])
  {
    if s != "" {
      ReadIsDigits(s[..|s|-1]);
    }
  }

  lemma ParseMeans(s: string)
    requires Parse(s).Some?
    ensures |Undashed(s)| == 32
    ensures forall k :: 0 <= k < 32 ==> HexValue(Undashed(s)[k]) == Some(Parse(s).value[k])
  {
    ReadIsDigits(s);
  }

  lemma ReadOneMore(a: string, c: char)
    ensures Read(a + [c]) == Added(Read(a), c)
  {
    assert (a + [c])[..|a|] == a;
  }

  lemma ReadDash(a: string, u: seq<Hex>)
    requires Read(a) == Some(u) && |u| % 2 == 0
    ensures Read(a + "-") == Some(u)
  {
    ReadOneMore(a, '-');
  }

  lemma ReadDigit(a: string, u: seq<Hex>, h: Hex)
    requires Read(a) == Some(u) && |u| < 32
    ensures Read(a + [HexChar(h)]) == Some(u + [h])
  {
    ReadOneMore(a, HexChar(h));
  }

  lemma {:induction false} ReadOfText(u: UUID, n: nat)
    requires n <= 32
    ensures Read(TextTo(u, n)) == Some(u[..n])
  {
    if n > 0 {
      ReadOfText(u, n - 1);
      ReadNext(TextTo(u, n - 1), u[..n-1], if n - 1 in {8, 12, 16, 20} then "-" else "", u[n-1]);
      OneDigitMore(u, n);
    }
  }

  lemma OneDigitMore(u: UUID, n: nat)
    requires 0 < n <= 32
    ensures u[..n-1] + [u[n-1]] == u[..n]
  {
  }

  lemma ReadNext(a: string, u: seq<Hex>, dash: string, h: Hex)
    requires Read(a) == Some(u) && |u| < 32 && (dash == "" || (dash == "-" && |u| % 2 == 0))
    ensures Read(a + dash + [HexChar(h)]) == Some(u + [h])
  {
    if dash == "" {
      assert a + dash == a;
    } else {
      ReadDash(a, u);
    }
    ReadDigit(a + dash, u, h);
  }

  /** The text of a UUID reads back. */
  lemma ParseOfText(u: UUID)
    ensures Parse(Text(u)) == Some(u)
  {
    ReadOfText(u, 32);
    assert u[..32] == u;
  }

  /** How many dashes come before digit `k`. */
  function Dashes(k: nat): nat {
    if k < 8 then 0 else if k < 12 then 1 else if k < 16 then 2 else if k < 20 then 3 else 4
  }

  lemma {:induction false} TextToShape(u: UUID, n: nat, k: nat)
    requires k < n <= 32
    ensures |TextTo(u, n)| == n + Dashes(n - 1) && k + Dashes(k) < |TextTo(u, n)|
    ensures TextTo(u, n)[k + Dashes(k)] == HexChar(u[k])
    ensures k in {8, 12, 16, 20} ==> TextTo(u, n)[k + Dashes(k) - 1] == '-'
  {
    if n > 1 {
      TextToShape(u, n - 1, if k < n - 1 then k else 0);
    }
  }

  /** The text has 36 characters: the digits in order, and a dash before digits 8, 12, 16 and 20. */
  lemma TextShape(u: UUID, k: nat)
    requires k < 32
    ensures |Text(u)| == 36 && k + Dashes(k) < 36 && Text(u)[k + Dashes(k)] == HexChar(u[k])
    ensures Text(u)[8] == Text(u)[13] == Text(u)[18] == Text(u)[23] == '-'
  {
    TextToShape(u, 32, k);
    TextToShape(u, 32, 8);
    TextToShape(u, 32, 12);
    TextToShape(u, 32, 16);
    TextToShape(u, 32, 20);
  }
}
