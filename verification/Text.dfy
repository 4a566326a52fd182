/** UTF-8 lengths, control characters, decimal and hexadecimal text. */
module Text {
  import opened Events

  function CharBytes(c: char): (n: nat)
    ensures 1 <= n <= 4
  {
    if c as int < 0x80 then 1 else if c as int < 0x800 then 2 else if c as int < 0x10000 then 3 else 4
  }

  function Bytes(s: string): nat {
    if s == "" then 0 else CharBytes(s[0]) + Bytes(s[1..])
  }

  predicate IsControl(c: char) {
    c as int < 0x20 || 0x7F <= c as int <= 0x9F
  }

  predicate Clean(s: string) {
    forall i :: 0 <= i < |s| ==> !IsControl(s[i])
  }

  function StripControl(s: string): (r: string)
    ensures Clean(r)
  {
    if s == "" then "" else if IsControl(s[0]) then StripControl(s[1..]) else [s[0]] + StripControl(s[1..])
  }

  /** Control characters go, everything else stays where it is. */
  lemma {:induction false} StripsPiecewise(a: string, b: string)
    ensures StripControl(a + b) == StripControl(a) + StripControl(b)
    decreases |a|
  {
    if a == "" {
      assert a + b == b;
    } else {
      StripsPiecewise(a[1..], b);
      assert (a + b)[1..] == a[1..] + b;
    }
  }

  lemma StripsControlOnly(c: char)
    ensures StripControl([c]) == if c < ' ' || '\U{7F}' <= c <= '\U{9F}' then "" else [c]
  {
    assert [c][1..] == "";
  }

  lemma {:induction false} CleanStays(s: string)
    requires Clean(s)
    ensures StripControl(s) == s
    decreases |s|
  {
    if s != "" {
      CleanStays(s[1..]);
      assert s == [s[0]] + s[1..];
    }
  }

  /** Lengths are those of UTF-8: one byte up to U+007F, two up to U+07FF, three up to U+FFFF, else four. */
  lemma Utf8Lengths(c: char)
    ensures Bytes([c]) == if c <= '\U{7F}' then 1 else if c <= '\U{7FF}' then 2 else if c <= '\U{FFFF}' then 3 else 4
  {
    assert [c][1..] == "";
  }

  lemma {:induction false} BytesConcat(a: string, b: string)
    ensures Bytes(a + b) == Bytes(a) + Bytes(b)
    decreases |a|
  {
    if a == "" {
      assert a + b == b;
    } else {
      BytesConcat(a[1..], b);
      assert (a + b)[1..] == a[1..] + b;
    }
  }

  lemma {:induction false} AsciiBytes(s: string)
    requires forall i :: 0 <= i < |s| ==> s[i] as int < 0x80
    ensures Bytes(s) == |s|
    decreases |s|
  {
    if s != "" {
      AsciiBytes(s[1..]);
    }
  }

  lemma {:induction false} BytesAtLeast(s: string)
    ensures Bytes(s) >= |s|
    decreases |s|
  {
    if s != "" {
      BytesAtLeast(s[1..]);
    }
  }

  // ---- Truncation at a character boundary ----------------------------------------------------

  /** The longest prefix of whole characters within `max` bytes. */
  function TakeBytes(s: string, max: nat): string {
    if s == "" || CharBytes(s[0]) > max then "" else [s[0]] + TakeBytes(s[1..], max - CharBytes(s[0]))
  }

  lemma {:induction false} TakenFits(s: string, max: nat)
    ensures
      var r := TakeBytes(s, max);
      && r <= s && Bytes(r) <= max && (Clean(s) ==> Clean(r))
      && (r == s || Bytes(r) + CharBytes(s[|r|]) > max)
    decreases |s|
  {
    if s != "" && CharBytes(s[0]) <= max {
      TakenFits(s[1..], max - CharBytes(s[0]));
      var rest := TakeBytes(s[1..], max - CharBytes(s[0]));
      assert ([s[0]] + rest)[1..] == rest;
    }
  }

  lemma PlainConcat(a: string, b: string)
    ensures Bytes(a + b) == Bytes(a) + Bytes(b)
    ensures Clean(a) && Clean(b) ==> Clean(a + b)
  {
    BytesConcat(a, b);
  }

  predicate IsBoundary(s: string, at: nat) {
    at == 0 || (s != "" && CharBytes(s[0]) <= at && IsBoundary(s[1..], at - CharBytes(s[0])))
  }

  function PrefixAt(s: string, at: nat): string
    requires IsBoundary(s, at)
  {
    if at == 0 then "" else [s[0]] + PrefixAt(s[1..], at - CharBytes(s[0]))
  }

  lemma {:induction false} FirstBoundary(s: string)
    requires s != ""
    ensures IsBoundary(s, CharBytes(s[0]))
  {
    assert IsBoundary(s[1..], 0);
  }

  lemma {:induction false} LastBoundary(s: string, max: nat, at: nat)
    requires at <= max && IsBoundary(s, at) && forall b :: at < b <= max ==> !IsBoundary(s, b)
    ensures PrefixAt(s, at) == TakeBytes(s, max)
    decreases |s|
  {
    if s != "" && CharBytes(s[0]) <= max {
      var n := CharBytes(s[0]);
      FirstBoundary(s);
      assert at >= n;
      forall b | at - n < b <= max - n ensures !IsBoundary(s[1..], b) {
        assert !IsBoundary(s, b + n);
      }
      LastBoundary(s[1..], max - n, at - n);
    }
  }

  lemma {:induction false} ShortIsTaken(s: string, max: nat)
    requires Bytes(s) <= max
    ensures TakeBytes(s, max) == s
    decreases |s|
  {
    if s != "" {
      ShortIsTaken(s[1..], max - CharBytes(s[0]));
      assert s == [s[0]] + s[1..];
    }
  }

  /** Cuts at the limit, stepping back byte by byte to a character boundary. */
  method TruncateBytes(s: string, max: nat) returns (r: string)
    ensures r == TakeBytes(s, max)
  {
    if Bytes(s) <= max {
      ShortIsTaken(s, max);
      return s;
    }
    var end: nat := max;
    while end > 0 && !IsBoundary(s, end)
      invariant end <= max && forall b :: end < b <= max ==> !IsBoundary(s, b)
    {
      end := end - 1;
    }
    LastBoundary(s, max, end);
    r := PrefixAt(s, end);
  }

  // ---- Decimal -------------------------------------------------------------------------------

  const U64_MAX: nat := 0xFFFF_FFFF_FFFF_FFFF

  predicate IsDigit(c: char) {
    '0' <= c <= '9'
  }

  function DigitChar(d: nat): char
    requires d < 10
  {
    (48 + d) as char
  }

  function ToDecimal(n: nat): (s: string)
    ensures s != "" && forall i :: 0 <= i < |s| ==> IsDigit(s[i])
  {
    if n < 10 then [DigitChar(n)] else ToDecimal(n / 10) + [DigitChar(n % 10)]
  }

  function DigitValue(c: char): nat
    requires IsDigit(c)
  {
    c as int - 48
  }

  function DecimalValue(s: string): nat
    requires forall i :: 0 <= i < |s| ==> IsDigit(s[i])
  {
    if s == "" then 0 else 10 * DecimalValue(s[..|s| - 1]) + DigitValue(s[|s| - 1])
  }

  /** Digits only, no sign and no blank, and within 64 bits. */
  function ParseU64(s: string): Option<nat> {
    if s == "" || exists i :: 0 <= i < |s| && !IsDigit(s[i]) then None
    else if DecimalValue(s) > U64_MAX then None
    else Some(DecimalValue(s))
  }

  lemma {:induction false} DecimalInverse(n: nat)
    ensures DecimalValue(ToDecimal(n)) == n
    decreases n
  {
    if n >= 10 {
      DecimalInverse(n / 10);
      var s := ToDecimal(n);
      assert s[..|s| - 1] == ToDecimal(n / 10);
    } else {
      assert ToDecimal(n)[..0] == "";
    }
  }

  /** The last digit is the units' digit. */
  lemma DigitsInOrder(n: nat, d: nat)
    requires d < 10
    ensures ToDecimal(d) == [('0' as int + d) as char]
    ensures n > 0 ==> ToDecimal(10 * n + d) == ToDecimal(n) + ToDecimal(d)
  {
  }

  lemma ParsePrinted(n: nat)
    requires n <= U64_MAX
    ensures ParseU64(ToDecimal(n)) == Some(n)
  {
    DecimalInverse(n);
  }

  function Pow10(k: nat): nat {
    if k == 0 then 1 else 10 * Pow10(k - 1)
  }

  lemma {:induction false} DecimalLength(n: nat, k: nat)
    requires k > 0 && n < Pow10(k)
    ensures |ToDecimal(n)| <= k
    decreases k
  {
    if n >= 10 {
      DecimalLength(n / 10, k - 1);
    }
  }

  lemma {:induction false} ValueBelow(s: string)
    requires forall i :: 0 <= i < |s| ==> IsDigit(s[i])
    ensures DecimalValue(s) < Pow10(|s|)
    decreases |s|
  {
    if s != "" {
      ValueBelow(s[..|s| - 1]);
    }
  }

  /** No digit string of a value is shorter than the printed one. */
  lemma PrintedIsShortest(s: string)
    requires s != "" && forall i :: 0 <= i < |s| ==> IsDigit(s[i])
    ensures |ToDecimal(DecimalValue(s))| <= |s|
  {
    ValueBelow(s);
    DecimalLength(DecimalValue(s), |s|);
  }

  lemma PrintedIsPlain(n: nat)
    requires n <= U64_MAX
    ensures Clean(ToDecimal(n)) && Bytes(ToDecimal(n)) <= 20
  {
    assert Pow10(20) == 100_000_000_000_000_000_000 by {
      assert Pow10(5) == 100_000;
      assert Pow10(10) == 10_000_000_000;
      assert Pow10(15) == 1_000_000_000_000_000;
    }
    DecimalLength(n, 20);
    AsciiBytes(ToDecimal(n));
  }

  // ---- Lower case and hexadecimal ------------------------------------------------------------

  function LowerChar(c: char): (r: char)
    ensures CharBytes(r) == CharBytes(c) && (IsControl(r) <==> IsControl(c))
  {
    if 'A' <= c <= 'Z' then (c as int + 32) as char else c
  }

  function ToLower(s: string): (r: string)
    ensures |r| == |s| && Bytes(r) == Bytes(s) && (Clean(s) ==> Clean(r))
  {
    if s == "" then ""
    else
      var rest := ToLower(s[1..]);
      assert ([LowerChar(s[0])] + rest)[1..] == rest;
      [LowerChar(s[0])] + rest
  }

  lemma {:induction false} LowerAt(s: string, i: nat)
    requires i < |s|
    ensures ToLower(s)[i] == LowerChar(s[i])
    decreases |s|
  {
    if i > 0 {
      LowerAt(s[1..], i - 1);
    }
  }

  lemma LowerIsPointwise(s: string)
    ensures forall i :: 0 <= i < |s| ==> ToLower(s)[i] == LowerChar(s[i])
  {
    forall i | 0 <= i < |s| ensures ToLower(s)[i] == LowerChar(s[i]) { LowerAt(s, i); }
  }

  lemma LowerTwice(s: string)
    ensures ToLower(ToLower(s)) == ToLower(s)
  {
    LowerIsPointwise(s);
    LowerIsPointwise(ToLower(s));
  }

  predicate IsHexDigit(c: char) {
    IsDigit(c) || 'a' <= c <= 'f'
  }

  predicate IsLowerHex(s: string, len: nat) {
    Bytes(s) == len && forall i :: 0 <= i < |s| ==> IsHexDigit(s[i])
  }

  function HexChar(n: nat): (c: char)
    requires n < 16
    ensures IsHexDigit(c)
  {
    if n < 10 then (48 + n) as char else (87 + n) as char
  }

  function ToHex(bytes: seq<nat>): (s: string)
    requires forall i :: 0 <= i < |bytes| ==> bytes[i] < 256
    ensures |s| == 2 * |bytes| && forall i :: 0 <= i < |s| ==> IsHexDigit(s[i])
  {
    if bytes == [] then "" else [HexChar(bytes[0] / 16), HexChar(bytes[0] % 16)] + ToHex(bytes[1..])
  }

  function HexDigitValue(c: char): nat
    requires IsHexDigit(c)
  {
    if c <= '9' then c as int - '0' as int else c as int - 'a' as int + 10
  }

  /** Two digits per byte, the high one first. */
  lemma {:induction false} HexAt(bytes: seq<nat>, i: nat)
    requires i < |bytes| && forall j :: 0 <= j < |bytes| ==> bytes[j] < 256
    ensures
      var s := ToHex(bytes);
      16 * HexDigitValue(s[2 * i]) + HexDigitValue(s[2 * i + 1]) == bytes[i]
    decreases |bytes|
  {
    if i > 0 {
      HexAt(bytes[1..], i - 1);
    }
  }

  lemma HexIsInjective(a: seq<nat>, b: seq<nat>)
    requires forall i :: 0 <= i < |a| ==> a[i] < 256
    requires forall i :: 0 <= i < |b| ==> b[i] < 256
    ensures ToHex(a) == ToHex(b) ==> a == b
  {
    if ToHex(a) == ToHex(b) {
      assert |a| == |b|;
      forall i | 0 <= i < |a| ensures a[i] == b[i] {
        HexAt(a, i);
        HexAt(b, i);
      }
    }
  }

  lemma HexIsLowerHex(bytes: seq<nat>)
    requires forall i :: 0 <= i < |bytes| ==> bytes[i] < 256
    ensures IsLowerHex(ToHex(bytes), 2 * |bytes|)
  {
    AsciiBytes(ToHex(bytes));
  }
}
