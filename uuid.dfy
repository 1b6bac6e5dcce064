/**
 * The identity generator of the worker registry (`generateUuid`).
 *
 * The source builds the template "10000000-1000-4000-8000-100000000000" out of
 * number-to-string coercions and then replaces every '0', '1' and '8' of it,
 * left to right, by a hexadecimal digit computed from one fresh random byte:
 * the digit is `c ^ (byte & (15 >> (c / 4)))`, where `c` is the replaced
 * character read as a number. The '4' and the hyphens are kept. The result is
 * the layout of a version-4 UUID (section 4.4 of RFC 4122): the version digit is
 * always '4' and the variant digit is always one of '8', '9', 'a', 'b'.
 *
 * The random source is a parameter: one byte per replaced character, in the
 * order the replacements are made.
 */
module Uuid {

  type Byte = bv8

  /** `k` zero digits. */
  function Zeros(k: nat): (z: string)
    ensures |z| == k && forall i | 0 <= i < k :: z[i] == '0'
  {
    if k == 0 then "" else "0" + Zeros(k - 1)
  }

  /** The decimal text of `lead * 10^k`, for a single digit `lead`. */
  function Decimal(lead: char, k: nat): (d: string)
    ensures |d| == k + 1 && d[0] == lead && forall i | 1 <= i <= k :: d[i] == '0'
  {
    [lead] + Zeros(k)
  }

  /** `[1e7] + -1e3 + -4e3 + -8e3 + -1e11`, as the string it coerces to. */
  const Template: string :=
    Decimal('1', 7) + "-" + Decimal('1', 3) + "-" + Decimal('4', 3) + "-" + Decimal('8', 3) + "-" + Decimal('1', 11)

  /** How many random bytes one identifier consumes (one per replaced character). */
  const RandomBytes: nat := 31

  /** The characters the pattern `/[018]/g` matches. */
  predicate Replaced(c: char) {
    c == '0' || c == '1' || c == '8'
  }

  /** The matched character read as a number. */
  function Code(c: char): (n: nat)
    requires Replaced(c)
  {
    (c as int) - ('0' as int)
  }

  /** `15 >> (c / 4)`: the shift count is `c / 4` truncated to an integer (0, 0 and 2). */
  function Mask(c: char): bv8
    requires Replaced(c)
  {
    (15 as bv8) >> (Code(c) / 4)
  }

  /** The number whose hexadecimal text replaces `c`, drawn from the random byte `b`. */
  function Nibble(c: char, b: Byte): (n: bv8)
    requires Replaced(c)
    ensures n < 16
    ensures c == '8' ==> 8 <= n < 12
  {
    (Code(c) as bv8) ^ (b & Mask(c))
  }

  predicate IsLowerHex(ch: char) {
    ('0' <= ch <= '9') || ('a' <= ch <= 'f')
  }

  predicate IsVariantDigit(ch: char) {
    ch == '8' || ch == '9' || ch == 'a' || ch == 'b'
  }

  /** `n.toString(16)` for a number below 16: one lower-case hexadecimal digit. */
  function HexDigit(n: bv8): (ch: char)
    requires n < 16
    ensures IsLowerHex(ch)
  {
    if n < 10 then (('0' as int) + n as int) as char else (('a' as int) + n as int - 10) as char
  }

  /** The number a lower-case hexadecimal digit stands for. */
  function HexValue(ch: char): (n: bv8)
    requires IsLowerHex(ch)
    ensures n < 16 && HexDigit(n) == ch
  {
    if ch <= '9' then ((ch as int) - ('0' as int)) as bv8 else ((ch as int) - ('a' as int) + 10) as bv8
  }

  /** Reading back the digit `toString(16)` produced gives the number again. */
  lemma HexRoundTrip(n: bv8)
    requires n < 16
    ensures HexValue(HexDigit(n)) == n
  {
  }

  function ReplacedCount(tpl: string): nat {
    if tpl == [] then 0 else (if Replaced(tpl[0]) then 1 else 0) + ReplacedCount(tpl[1..])
  }

  /** `tpl.replace(/[018]/g, ...)`, the k-th replacement drawing `rnd[k]`. */
  function Fill(tpl: string, rnd: seq<Byte>): (r: string)
    requires |rnd| == ReplacedCount(tpl)
    ensures |r| == |tpl|
  {
    if tpl == [] then ""
    else if Replaced(tpl[0]) then [HexDigit(Nibble(tpl[0], rnd[0]))] + Fill(tpl[1..], rnd[1..])
    else [tpl[0]] + Fill(tpl[1..], rnd)
  }

  /** The characters a template position can turn into. */
  predicate Fits(t: char, ch: char) {
    if t == '0' || t == '1' then IsLowerHex(ch)
    else if t == '8' then IsVariantDigit(ch)
    else ch == t
  }

  predicate Conforms(tpl: string, s: string) {
    |s| == |tpl| && forall p | 0 <= p < |tpl| :: Fits(tpl[p], s[p])
  }

  /** Every output of `Fill` conforms to its template. */
  lemma {:induction false} FillConforms(tpl: string, rnd: seq<Byte>)
    requires |rnd| == ReplacedCount(tpl)
    ensures Conforms(tpl, Fill(tpl, rnd))
  {
    if tpl != [] {
      var rest := if Replaced(tpl[0]) then rnd[1..] else rnd;
      FillConforms(tpl[1..], rest);
      var r := Fill(tpl, rnd);
      assert r[1..] == Fill(tpl[1..], rest);
      forall p | 0 <= p < |tpl| ensures Fits(tpl[p], r[p]) {
        if p > 0 {
          assert tpl[p] == tpl[1..][p - 1] && r[p] == r[1..][p - 1];
        }
      }
    }
  }

  /** The random bytes, already masked, that make `Fill` produce `s`. */
  function Unfill(tpl: string, s: string): (rnd: seq<Byte>)
    requires Conforms(tpl, s)
    ensures |rnd| == ReplacedCount(tpl)
  {
    if tpl == [] then []
    else
      assert Conforms(tpl[1..], s[1..]) by {
        forall p | 0 <= p < |tpl| - 1 ensures Fits(tpl[1..][p], s[1..][p]) {
          assert Fits(tpl[p + 1], s[p + 1]);
        }
      }
      if Replaced(tpl[0]) then [HexValue(s[0]) ^ (Code(tpl[0]) as bv8)] + Unfill(tpl[1..], s[1..])
      else Unfill(tpl[1..], s[1..])
  }

  /** The bits of `rnd` that `Fill` actually reads: each byte under its position's mask. */
  function Masked(tpl: string, rnd: seq<Byte>): (m: seq<Byte>)
    requires |rnd| == ReplacedCount(tpl)
    ensures |m| == |rnd|
  {
    if tpl == [] then []
    else if Replaced(tpl[0]) then [rnd[0] & Mask(tpl[0])] + Masked(tpl[1..], rnd[1..])
    else Masked(tpl[1..], rnd)
  }

  lemma NibbleInverse(c: char, ch: char)
    requires Replaced(c) && Fits(c, ch)
    ensures HexDigit(Nibble(c, HexValue(ch) ^ (Code(c) as bv8))) == ch
  {
    var h := HexValue(ch);
    assert Nibble(c, h ^ (Code(c) as bv8)) == h;
  }

  lemma NibbleMasked(c: char, b: Byte)
    requires Replaced(c)
    ensures HexValue(HexDigit(Nibble(c, b))) ^ (Code(c) as bv8) == b & Mask(c)
  {
    var n := Nibble(c, b);
    assert HexValue(HexDigit(n)) == n by {
      assert HexDigit(HexValue(HexDigit(n))) == HexDigit(n);
    }
  }

  /** Every string that conforms to the template is an output of `Fill`. */
  lemma {:induction false} FillUnfill(tpl: string, s: string)
    requires Conforms(tpl, s)
    ensures Fill(tpl, Unfill(tpl, s)) == s
  {
    if tpl != [] {
      assert Conforms(tpl[1..], s[1..]) by {
        forall p | 0 <= p < |tpl| - 1 ensures Fits(tpl[1..][p], s[1..][p]) {
          assert Fits(tpl[p + 1], s[p + 1]);
        }
      }
      FillUnfill(tpl[1..], s[1..]);
      assert Fits(tpl[0], s[0]);
      if Replaced(tpl[0]) {
        NibbleInverse(tpl[0], s[0]);
      }
      assert s == [s[0]] + s[1..];
    }
  }

  /** `Fill` reads nothing of `rnd` but its masked bits, and loses none of them. */
  lemma {:induction false} UnfillFill(tpl: string, rnd: seq<Byte>)
    requires |rnd| == ReplacedCount(tpl)
    ensures Conforms(tpl, Fill(tpl, rnd))
    ensures Unfill(tpl, Fill(tpl, rnd)) == Masked(tpl, rnd)
  {
    FillConforms(tpl, rnd);
    if tpl != [] {
      var rest := if Replaced(tpl[0]) then rnd[1..] else rnd;
      var r := Fill(tpl, rnd);
      assert r[1..] == Fill(tpl[1..], rest);
      UnfillFill(tpl[1..], rest);
      if Replaced(tpl[0]) {
        NibbleMasked(tpl[0], rnd[0]);
      }
    }
  }

  lemma {:induction false} CountAppend(a: string, b: string)
    ensures ReplacedCount(a + b) == ReplacedCount(a) + ReplacedCount(b)
  {
    if a == [] {
      assert a + b == b;
    } else {
      assert (a + b)[1..] == a[1..] + b;
      CountAppend(a[1..], b);
    }
  }

  lemma {:induction false} CountDecimal(lead: char, k: nat)
    ensures ReplacedCount(Decimal(lead, k)) == k + (if Replaced(lead) then 1 else 0)
  {
    if k == 0 {
      assert Decimal(lead, 0) == [lead];
    } else {
      assert Decimal(lead, k) == Decimal(lead, k - 1) + "0";
      CountDecimal(lead, k - 1);
      CountAppend(Decimal(lead, k - 1), "0");
    }
  }

  /** The template has exactly `RandomBytes` replaced positions. */
  lemma TemplateCount()
    ensures ReplacedCount(Template) == RandomBytes
  {
    var a, b, c, d, e := Decimal('1', 7), Decimal('1', 3), Decimal('4', 3), Decimal('8', 3), Decimal('1', 11);
    CountDecimal('1', 7);
    CountDecimal('1', 3);
    CountDecimal('4', 3);
    CountDecimal('8', 3);
    CountDecimal('1', 11);
    assert ReplacedCount("-") == 0;
    CountAppend(a, "-");
    CountAppend(a + "-", b);
    CountAppend(a + "-" + b, "-");
    CountAppend(a + "-" + b + "-", c);
    CountAppend(a + "-" + b + "-" + c, "-");
    CountAppend(a + "-" + b + "-" + c + "-", d);
    CountAppend(a + "-" + b + "-" + c + "-" + d, "-");
    CountAppend(a + "-" + b + "-" + c + "-" + d + "-", e);
  }

  predicate IsHyphenPosition(p: int) {
    p == 8 || p == 13 || p == 18 || p == 23
  }

  /**
   * A version-4 UUID in its canonical text form: 36 characters, hyphens at
   * 8, 13, 18 and 23 (groups of 8-4-4-4-12), lower-case hexadecimal elsewhere,
   * version digit '4' at 14 and variant digit 8, 9, a or b at 19.
   */
  predicate IsUuidV4(s: string) {
    && |s| == 36
    && (forall p | 0 <= p < 36 :: IsHyphenPosition(p) <==> s[p] == '-')
    && (forall p | 0 <= p < 36 && !IsHyphenPosition(p) :: IsLowerHex(s[p]))
    && s[14] == '4'
    && IsVariantDigit(s[19])
  }

  /** The template character at each position. */
  lemma TemplateAt(p: nat)
    requires p < 36
    ensures |Template| == 36
    ensures IsHyphenPosition(p) <==> Template[p] == '-'
    ensures !IsHyphenPosition(p) && p != 14 && p != 19 ==> Template[p] == '0' || Template[p] == '1'
    ensures p == 14 ==> Template[p] == '4'
    ensures p == 19 ==> Template[p] == '8'
  {
  }

  /** Conforming to the template is exactly the version-4 layout. */
  lemma TemplateIsUuidV4(s: string)
    ensures Conforms(Template, s) <==> IsUuidV4(s)
  {
    TemplateAt(0);
    if Conforms(Template, s) {
      forall p | 0 <= p < 36 ensures (IsHyphenPosition(p) <==> s[p] == '-') && (!IsHyphenPosition(p) ==> IsLowerHex(s[p])) {
        TemplateAt(p);
        assert Fits(Template[p], s[p]);
      }
      TemplateAt(14);
      TemplateAt(19);
      assert Fits(Template[14], s[14]) && Fits(Template[19], s[19]);
    }
    if IsUuidV4(s) {
      forall p | 0 <= p < 36 ensures Fits(Template[p], s[p]) {
        TemplateAt(p);
      }
    }
  }

  /** `generateUuid()`, given the random bytes it draws. */
  function GenerateUuid(rnd: seq<Byte>): (id: string)
    requires |rnd| == RandomBytes
    ensures IsUuidV4(id)
  {
    TemplateCount();
    FillConforms(Template, rnd);
    TemplateIsUuidV4(Fill(Template, rnd));
    Fill(Template, rnd)
  }

  /** The (masked) random bytes behind an identifier. */
  function UuidRandomness(id: string): (rnd: seq<Byte>)
    requires IsUuidV4(id)
    ensures |rnd| == RandomBytes
  {
    TemplateIsUuidV4(id);
    TemplateCount();
    Unfill(Template, id)
  }

  /** Every version-4 UUID is a possible output of `generateUuid`. */
  lemma GenerateUuidOnto(id: string)
    requires IsUuidV4(id)
    ensures GenerateUuid(UuidRandomness(id)) == id
  {
    TemplateIsUuidV4(id);
    FillUnfill(Template, id);
  }

  /** The bits of a draw that `generateUuid` reads. */
  function MaskedBits(rnd: seq<Byte>): (m: seq<Byte>)
    requires |rnd| == RandomBytes
    ensures |m| == RandomBytes
  {
    TemplateCount();
    Masked(Template, rnd)
  }

  /** An identifier records exactly the random bits `generateUuid` reads. */
  lemma GenerateUuidRecordsBits(rnd: seq<Byte>)
    requires |rnd| == RandomBytes
    ensures UuidRandomness(GenerateUuid(rnd)) == MaskedBits(rnd)
  {
    TemplateCount();
    UnfillFill(Template, rnd);
  }

  /** Two draws give the same identifier iff they agree on the bits it reads. */
  lemma GenerateUuidInjective(rnd: seq<Byte>, rnd': seq<Byte>)
    requires |rnd| == RandomBytes && |rnd'| == RandomBytes
    ensures GenerateUuid(rnd) == GenerateUuid(rnd') <==> MaskedBits(rnd) == MaskedBits(rnd')
  {
    var id, id' := GenerateUuid(rnd), GenerateUuid(rnd');
    GenerateUuidRecordsBits(rnd);
    GenerateUuidRecordsBits(rnd');
    if MaskedBits(rnd) == MaskedBits(rnd') {
      GenerateUuidOnto(id);
      GenerateUuidOnto(id');
    }
  }
}
