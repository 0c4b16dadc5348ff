/** Printing of 64-bit numbers (coregrind/m_debuglog.c) in any base from 2 to 16, with or without commas,
    sign and padding, against a reader of such numbers and the width computed in cachegrind/cg_main.c. */
module Printer {
  import opened Options
  import opened Words

  const LOWER: string := "0123456789abcdef"
  const UPPER: string := "0123456789ABCDEF"

  function Digit(d: nat, capitals: bool): (c: char)
    requires d < 16
  {
    if capitals then UPPER[d] else LOWER[d]
  }

  /** The value of a character as a digit. */
  function DigitValue(c: char): Option<nat> {
    if '0' <= c <= '9' then Some(c as nat - '0' as nat)
    else if 'a' <= c <= 'f' then Some(c as nat - 'a' as nat + 10)
    else if 'A' <= c <= 'F' then Some(c as nat - 'A' as nat + 10)
    else None
  }

  lemma DigitReads(d: nat, capitals: bool)
    requires d < 16
    ensures DigitValue(Digit(d, capitals)) == Some(d) && Digit(d, capitals) !in {',', '-', ' '}
  {
  }

  // ----- the reader

  /** Digits with commas anywhere. */
  function ReadDigits(s: string, base: nat): (r: Option<nat>) {
    if s == "" then Some(0)
    else
      var front, c := ReadDigits(s[..|s| - 1], base), s[|s| - 1];
      if front.None? then None
      else if c == ',' then front
      else match DigitValue(c)
        case None => None
        case Some(d) => if d < base then Some(front.value * base + d) else None
  }

  function SkipSpaces(s: string): string {
    if s != "" && s[0] == ' ' then SkipSpaces(s[1..]) else s
  }

  function TrimRight(s: string): string {
    if s != "" && s[|s| - 1] == ' ' then TrimRight(s[..|s| - 1]) else s
  }

  function ReadNat(s: string, base: nat): Option<int> {
    match ReadDigits(s, base)
    case None => None
    case Some(n) => if s == "" then None else Some(n)
  }

  /** Spaces, a sign if any, digits and commas, spaces. */
  function Read(s: string, base: nat): Option<int> {
    var t := TrimRight(SkipSpaces(s));
    if t != "" && t[0] == '-' then
      match ReadNat(t[1..], base)
      case None => None
      case Some(n) => Some(-n)
    else ReadNat(t, base)
  }

  // ----- the printer, least significant character first

  predicate CommaDue(ind: nat, nc: nat, base: nat, commas: bool)
    requires nc <= ind
  {
    commas && base == 10 && (ind - nc) % 3 == 0 && ind != 0
  }

  /** The loop over the digits, from position ind with nc commas already there. */
  function Emit(p: nat, ind: nat, nc: nat, base: nat, commas: bool, capitals: bool): (s: string)
    requires 2 <= base <= 16 && nc <= ind
    decreases p
  {
    if p == 0 then ""
    else
      Quot2(p, base);
      var c := Digit(Rem(p, base), capitals);
      if CommaDue(ind, nc, base, commas) then [',', c] + Emit(Quot(p, base), ind + 2, nc + 1, base, commas, capitals)
      else [c] + Emit(Quot(p, base), ind + 1, nc, base, commas, capitals)
  }

  lemma Quot2(p: nat, base: nat)
    requires base >= 2
    ensures 2 * Quot(p, base) <= p && (p > 0 ==> Quot(p, base) < p)
    ensures p == Quot(p, base) * base + Rem(p, base)
  {
    hide Quot, Rem;
    QuotRem(p, base);
    assert Quot(p, base) * base >= Quot(p, base) * 2;
  }

  function Body(p: nat, base: nat, commas: bool, capitals: bool): (s: string)
    requires 2 <= base <= 16
  {
    if p == 0 then "0" else Emit(p, 0, 0, base, commas, capitals)
  }

  function Repeat(c: char, n: nat): (s: string)
    ensures |s| == n && forall i :: 0 <= i < n ==> s[i] == c
  {
    seq(n, _ => c)
  }

  function Reverse(s: string): (t: string)
    ensures |t| == |s|
  {
    if s == "" then "" else Reverse(s[1..]) + [s[0]]
  }

  /** The signed flag takes the value for negative from 2^63 on. */
  predicate Negative(signed: bool, p: nat) {
    signed && p >= 0x8000_0000_0000_0000
  }

  function Magnitude(signed: bool, p: nat): nat
    requires p < WORD
  {
    if Negative(signed, p) then WORD - p else p
  }

  /** What is filled before padding: the digits, then the sign. */
  function Filled(signed: bool, p: nat, base: nat, commas: bool, capitals: bool): (s: string)
    requires 2 <= base <= 16 && p < WORD
  {
    Body(Magnitude(signed, p), base, commas, capitals) + if Negative(signed, p) then "-" else ""
  }

  function Missing(width: int, len: nat): nat {
    if width > len then width - len else 0
  }

  /** All that is sent. */
  function Text(signed: bool, commas: bool, ljust: bool, zjust: bool, base: int, width: int, capitals: bool, p: nat): (s: string)
    requires p < WORD
  {
    if base < 2 || base > 16 then ""
    else
      var filled := Filled(signed, p, base, commas, capitals);
      var missing := Missing(width, |filled|);
      if ljust then Reverse(filled) + Repeat(' ', missing)
      else Reverse(filled + Repeat(if zjust then '0' else ' ', missing))
  }

  // ----- reading back

  lemma {:induction false} ReversePush(c: char, s: string)
    ensures Reverse([c] + s) == Reverse(s) + [c]
  {
    assert ([c] + s)[1..] == s;
  }

  lemma {:induction false} ReverseConcat(s: string, t: string)
    ensures Reverse(s + t) == Reverse(t) + Reverse(s)
  {
    if s == "" {
      assert s + t == t;
    } else {
      assert (s + t)[1..] == s[1..] + t;
      ReverseConcat(s[1..], t);
    }
  }

  lemma {:induction false} ReverseRepeat(c: char, n: nat)
    ensures Reverse(Repeat(c, n)) == Repeat(c, n)
  {
    if n > 0 {
      assert Repeat(c, n)[1..] == Repeat(c, n - 1);
      ReverseRepeat(c, n - 1);
    }
  }

  lemma ReadPush(s: string, c: char, base: nat)
    requires ReadDigits(s, base).Some?
    ensures c == ',' ==> ReadDigits(s + [c], base) == ReadDigits(s, base)
    ensures c != ',' && DigitValue(c).Some? && DigitValue(c).value < base
        ==> ReadDigits(s + [c], base) == Some(ReadDigits(s, base).value * base + DigitValue(c).value)
    ensures c == '-' ==> ReadDigits(s + [c], base) == None
  {
    assert (s + [c])[..|s|] == s;
  }

  lemma PushDigit(rest: string, d: nat, base: nat, capitals: bool)
    requires d < base <= 16 && ReadDigits(Reverse(rest), base).Some?
    ensures ReadDigits(Reverse([Digit(d, capitals)] + rest), base) == Some(ReadDigits(Reverse(rest), base).value * base + d)
  {
    hide Digit, DigitValue, ReadDigits, Reverse;
    DigitReads(d, capitals);
    ReversePush(Digit(d, capitals), rest);
    ReadPush(Reverse(rest), Digit(d, capitals), base);
  }

  lemma PushComma(c: char, rest: string, base: nat)
    requires ReadDigits(Reverse([c] + rest), base).Some?
    ensures ReadDigits(Reverse([',', c] + rest), base) == ReadDigits(Reverse([c] + rest), base)
  {
    assert [',', c] + rest == [','] + ([c] + rest);
    ReversePush(',', [c] + rest);
    ReadPush(Reverse([c] + rest), ',', base);
  }

  lemma {:induction false} EmitReads(p: nat, ind: nat, nc: nat, base: nat, commas: bool, capitals: bool)
    requires 2 <= base <= 16 && nc <= ind
    ensures ReadDigits(Reverse(Emit(p, ind, nc, base, commas, capitals)), base) == Some(p)
    decreases p
  {
    hide Digit, DigitValue, CommaDue, Quot, Rem;
    if p > 0 {
      var comma := CommaDue(ind, nc, base, commas);
      var c := Digit(Rem(p, base), capitals);
      var ind', nc' := if comma then ind + 2 else ind + 1, if comma then nc + 1 else nc;
      Quot2(p, base);
      var rest := Emit(Quot(p, base), ind', nc', base, commas, capitals);
      EmitReads(Quot(p, base), ind', nc', base, commas, capitals);
      PushDigit(rest, Rem(p, base), base, capitals);
      if comma {
        PushComma(c, rest, base);
      }
    }
  }

  /** Commas removed or not, the digits read back as the value. */
  lemma BodyReads(p: nat, base: nat, commas: bool, capitals: bool)
    requires 2 <= base <= 16
    ensures ReadDigits(Reverse(Body(p, base, commas, capitals)), base) == Some(p)
  {
    if p == 0 {
      assert Reverse("0") == "" + ['0'];
      ReadPush("", '0', base);
    } else {
      EmitReads(p, 0, 0, base, commas, capitals);
    }
  }

  // ----- commas

  /** The decimal digits of n. */
  function NumDigits(n: nat): nat {
    if n == 0 then 0 else 1 + NumDigits(n / 10)
  }

  /** With nc commas at the positions before ind where they belong, the next is due at 3 modulo 4. */
  lemma CommaPlace(ind: nat, nc: nat)
    requires nc == ind / 4 && (ind == 0 || ind % 4 != 0)
    ensures CommaDue(ind, nc, 10, true) <==> ind % 4 == 3
  {
    assert ind == 4 * nc + ind % 4;
  }

  /** Counted from the right and from 0, the commas are at 3, 7, 11, ... */
  lemma {:induction false} EmitCommas(p: nat, ind: nat, nc: nat, capitals: bool)
    requires nc == ind / 4 && (ind == 0 || ind % 4 != 0)
    ensures forall i :: 0 <= i < |Emit(p, ind, nc, 10, true, capitals)| ==>
              (Emit(p, ind, nc, 10, true, capitals)[i] == ',' <==> (ind + i) % 4 == 3)
    decreases p
  {
    hide Digit, DigitValue, CommaDue, Quot, Rem;
    if p > 0 {
      DigitReads(Rem(p, 10), capitals);
      Quot2(p, 10);
      CommaPlace(ind, nc);
      if ind % 4 == 3 {
        EmitCommas(Quot(p, 10), ind + 2, nc + 1, capitals);
      } else {
        EmitCommas(Quot(p, 10), ind + 1, nc, capitals);
      }
    }
  }

  lemma {:induction false} EmitLength(p: nat, ind: nat, nc: nat, capitals: bool)
    requires nc == ind / 4 && (ind == 0 || ind % 4 != 0)
    ensures var e := ind + |Emit(p, ind, nc, 10, true, capitals)|;
      e - e / 4 == ind - nc + NumDigits(p) && (e == 0 || e % 4 != 0)
    decreases p
  {
    hide Digit, CommaDue;
    if p > 0 {
      CommaPlace(ind, nc);
      if ind % 4 == 3 {
        EmitLength(p / 10, ind + 2, nc + 1, capitals);
      } else {
        EmitLength(p / 10, ind + 1, nc, capitals);
      }
    }
  }

  /** The characters needed for n with commas. */
  function UlongWidth(n: nat): nat {
    var w := if n == 0 then 1 else NumDigits(n);
    w + (w - 1) / 3
  }

  /** Commas stand exactly between groups of three digits, counted from the right, never at the left end;
      and the number of characters is what ULong_width computes. */
  lemma GroupedDecimal(p: nat, capitals: bool)
    ensures |Body(p, 10, true, capitals)| == UlongWidth(p)
    ensures forall i :: 0 <= i < UlongWidth(p) ==> (Body(p, 10, true, capitals)[i] == ',' <==> i % 4 == 3)
    ensures (UlongWidth(p) - 1) % 4 != 3
  {
    hide Emit, Digit;
    if p > 0 {
      EmitCommas(p, 0, 0, capitals);
      EmitLength(p, 0, 0, capitals);
      LengthFromCount(|Emit(p, 0, 0, 10, true, capitals)|, NumDigits(p));
    }
  }

  lemma LengthFromCount(e: nat, w: nat)
    requires w > 0 && e - e / 4 == w && e % 4 != 0
    ensures e == w + (w - 1) / 3 && (e - 1) % 4 != 3
  {
    assert e == 4 * (e / 4) + e % 4;
  }

  // ----- padding and sign

  ghost predicate Plain(s: string) {
    forall i :: 0 <= i < |s| ==> s[i] != ' ' && s[i] != '-'
  }

  lemma {:induction false} EmitPlain(p: nat, ind: nat, nc: nat, base: nat, commas: bool, capitals: bool)
    requires 2 <= base <= 16 && nc <= ind
    ensures Plain(Emit(p, ind, nc, base, commas, capitals)) && (p > 0 ==> Emit(p, ind, nc, base, commas, capitals) != "")
    decreases p
  {
    hide Digit, DigitValue, CommaDue;
    if p > 0 {
      Quot2(p, base);
      DigitReads(Rem(p, base), capitals);
      EmitPlain(Quot(p, base), ind + 1, nc, base, commas, capitals);
      EmitPlain(Quot(p, base), ind + 2, nc + 1, base, commas, capitals);
    }
  }

  lemma {:induction false} ReversePlain(s: string)
    requires Plain(s)
    ensures Plain(Reverse(s))
  {
    if s != "" {
      ReversePlain(s[1..]);
    }
  }

  lemma {:induction false} SkipAll(n: nat, s: string)
    requires s != "" && s[0] != ' '
    ensures SkipSpaces(Repeat(' ', n) + s) == s
  {
    if n == 0 {
      assert Repeat(' ', 0) + s == s;
    } else {
      assert (Repeat(' ', n) + s)[1..] == Repeat(' ', n - 1) + s;
      SkipAll(n - 1, s);
    }
  }

  lemma {:induction false} TrimAll(s: string, n: nat)
    requires s != "" && s[|s| - 1] != ' '
    ensures TrimRight(s + Repeat(' ', n)) == s
  {
    if n == 0 {
      assert s + Repeat(' ', 0) == s;
    } else {
      assert (s + Repeat(' ', n))[..|s| + n - 1] == s + Repeat(' ', n - 1);
      TrimAll(s, n - 1);
    }
  }

  lemma {:induction false} ReadZeros(n: nat, s: string, base: nat)
    requires base >= 2
    ensures ReadDigits(Repeat('0', n) + s, base) == ReadDigits(s, base)
    decreases n + |s|
  {
    var t := Repeat('0', n) + s;
    if s != "" {
      assert t[..|t| - 1] == Repeat('0', n) + s[..|s| - 1];
      ReadZeros(n, s[..|s| - 1], base);
    } else if n > 0 {
      assert t[..|t| - 1] == Repeat('0', n - 1) + s;
      ReadZeros(n - 1, s, base);
    } else {
      assert t == s;
    }
  }

  lemma {:induction false} ReadMinus(s: string, i: nat, base: nat)
    requires i < |s| && s[i] == '-'
    ensures ReadDigits(s, base) == None
    decreases |s|
  {
    if i < |s| - 1 {
      ReadMinus(s[..|s| - 1], i, base);
    }
  }

  function Sign(neg: bool): string {
    if neg then "-" else ""
  }

  lemma ReversedBody(m: nat, base: nat, commas: bool, capitals: bool)
    requires 2 <= base <= 16
    ensures var r := Reverse(Body(m, base, commas, capitals)); r != "" && Plain(r) && ReadDigits(r, base) == Some(m)
  {
    BodyReads(m, base, commas, capitals);
    if m > 0 {
      EmitPlain(m, 0, 0, base, commas, capitals);
    }
    ReversePlain(Body(m, base, commas, capitals));
  }

  /** A sign and digits between spaces read as the signed value. */
  lemma ReadSpaced(m: nat, r: string, neg: bool, before: nat, after: nat, base: nat)
    requires r != "" && Plain(r) && ReadDigits(r, base) == Some(m)
    ensures Read(Repeat(' ', before) + (Sign(neg) + r) + Repeat(' ', after), base) == Some(if neg then -(m as int) else m as int)
  {
    hide ReadDigits;
    var t := Sign(neg) + r;
    assert Repeat(' ', before) + t + Repeat(' ', after) == Repeat(' ', before) + (t + Repeat(' ', after));
    SkipAll(before, t + Repeat(' ', after));
    TrimAll(t, after);
    assert neg ==> t[1..] == r;
    assert !neg ==> t == r;
  }

  /** With zeros in front, only a number without a sign reads as its value; a sign after the zeros makes
      it unreadable. */
  lemma ReadZeroed(m: nat, r: string, neg: bool, n: nat, base: nat)
    requires base >= 2 && r != "" && Plain(r) && ReadDigits(r, base) == Some(m) && n > 0
    ensures Read(Repeat('0', n) + (Sign(neg) + r), base) == if neg then None else Some(m)
  {
    var t := Repeat('0', n) + (Sign(neg) + r);
    assert t[0] == '0' && SkipSpaces(t) == t && TrimRight(t) == t;
    if neg {
      assert t[n] == '-';
      ReadMinus(t, n, base);
    } else {
      assert Sign(neg) + r == r;
      ReadZeros(n, r, base);
    }
  }

  function SignedValue(signed: bool, p: nat): int {
    if Negative(signed, p) then p as int - WORD as int else p
  }

  /** The signed value of a 64-bit word is its residue between -2^63 and 2^63. */
  lemma SignedValueIs(signed: bool, p: nat)
    requires p < WORD
    ensures var v := SignedValue(signed, p);
            if signed then -0x8000_0000_0000_0000 <= v < 0x8000_0000_0000_0000 && (v - p) % WORD == 0 else v == p
  {
  }

  lemma TextParts(signed: bool, commas: bool, ljust: bool, zjust: bool, base: int, width: int, capitals: bool, p: nat)
    requires p < WORD && 2 <= base <= 16
    ensures var r := Reverse(Body(Magnitude(signed, p), base, commas, capitals));
      var t := Sign(Negative(signed, p)) + r;
      var n := Missing(width, |t|);
      Text(signed, commas, ljust, zjust, base, width, capitals, p)
        == if ljust then t + Repeat(' ', n) else Repeat(if zjust then '0' else ' ', n) + t
  {
    hide Body, Reverse, Magnitude;
    var body, neg := Body(Magnitude(signed, p), base, commas, capitals), Negative(signed, p);
    ReverseConcat(body, Sign(neg));
    assert Reverse(Sign(neg)) == Sign(neg) by {
      ReverseRepeat('-', 1);
      ReverseRepeat('-', 0);
      assert Sign(neg) == Repeat('-', if neg then 1 else 0);
    }
    var filled := body + Sign(neg);
    assert filled == Filled(signed, p, base, commas, capitals);
    if !ljust {
      var n, c := Missing(width, |filled|), if zjust then '0' else ' ';
      ReverseConcat(filled, Repeat(c, n));
      ReverseRepeat(c, n);
    }
  }

  /** Nothing is printed exactly in a base that is not between 2 and 16. */
  lemma NothingIff(signed: bool, commas: bool, ljust: bool, zjust: bool, base: int, width: int, capitals: bool, p: nat)
    requires p < WORD
    ensures Text(signed, commas, ljust, zjust, base, width, capitals, p) == "" <==> !(2 <= base <= 16)
  {
    if 2 <= base <= 16 {
      hide Text, Reverse, Missing;
      TextParts(signed, commas, ljust, zjust, base, width, capitals, p);
      ReversedBody(Magnitude(signed, p), base, commas, capitals);
    }
  }

  /** Padding: the text of width 0 is kept whole, at the side the flag asks for, and filled up to the width
      with spaces, or with zeros in front if asked for. */
  lemma TextIsPadded(signed: bool, commas: bool, ljust: bool, zjust: bool, base: int, width: int, capitals: bool, p: nat)
    requires p < WORD && 2 <= base <= 16
    ensures var t, u := Text(signed, commas, ljust, zjust, base, width, capitals, p), Text(signed, commas, ljust, zjust, base, 0, capitals, p);
            && |t| == (if width > |u| then width else |u|)
            && (ljust ==> t[..|u|] == u && forall i :: |u| <= i < |t| ==> t[i] == ' ')
            && (!ljust ==> t[|t| - |u|..] == u && forall i :: 0 <= i < |t| - |u| ==> t[i] == if zjust then '0' else ' ')
  {
    hide Reverse, Body, Text;
    TextParts(signed, commas, ljust, zjust, base, width, capitals, p);
    TextParts(signed, commas, ljust, zjust, base, 0, capitals, p);
    var t := Sign(Negative(signed, p)) + Reverse(Body(Magnitude(signed, p), base, commas, capitals));
    PaddedAround(t, ' ', Missing(width, |t|));
    PaddedAround(t, if zjust then '0' else ' ', Missing(width, |t|));
    hide Sign, Negative, Magnitude, Repeat;
  }

  lemma PaddedAround(t: string, c: char, n: nat)
    ensures t + Repeat(c, 0) == t && Repeat(c, 0) + t == t && |Repeat(c, n)| == n
    ensures (t + Repeat(c, n))[..|t|] == t && forall i :: |t| <= i < |t| + n ==> (t + Repeat(c, n))[i] == c
    ensures (Repeat(c, n) + t)[n..] == t && forall i :: 0 <= i < n ==> (Repeat(c, n) + t)[i] == c
  {
  }

  /** A character of a number: a decimal digit, a letter of the case asked for, or a comma where commas are. */
  predicate Allowed(c: char, base: nat, commas: bool, capitals: bool) {
    || '0' <= c <= '9'
    || (base > 10 && if capitals then 'A' <= c <= 'F' else 'a' <= c <= 'f')
    || (c == ',' && commas && base == 10)
  }

  lemma DigitAllowed(d: nat, base: nat, commas: bool, capitals: bool)
    requires d < base <= 16
    ensures Allowed(Digit(d, capitals), base, commas, capitals)
  {
  }

  lemma {:induction false} EmitAllowed(p: nat, ind: nat, nc: nat, base: nat, commas: bool, capitals: bool)
    requires 2 <= base <= 16 && nc <= ind
    ensures forall i :: 0 <= i < |Emit(p, ind, nc, base, commas, capitals)| ==> Allowed(Emit(p, ind, nc, base, commas, capitals)[i], base, commas, capitals)
    decreases p
  {
    hide Allowed, Digit;
    if p > 0 {
      Quot2(p, base);
      DigitAllowed(Rem(p, base), base, commas, capitals);
      if CommaDue(ind, nc, base, commas) {
        CommaAllowed(capitals);
        EmitAllowed(Quot(p, base), ind + 2, nc + 1, base, commas, capitals);
      } else {
        EmitAllowed(Quot(p, base), ind + 1, nc, base, commas, capitals);
      }
    }
  }

  /** What stands between sign and padding. */
  lemma BodyAllowed(p: nat, base: nat, commas: bool, capitals: bool)
    requires 2 <= base <= 16
    ensures forall c :: c in Body(p, base, commas, capitals) ==> Allowed(c, base, commas, capitals)
  {
    EmitAllowed(p, 0, 0, base, commas, capitals);
  }

  lemma CommaAllowed(capitals: bool)
    ensures Allowed(',', 10, true, capitals)
  {
  }

  /** Round trip: what is sent reads back as the value, signed if asked for, in every base, with or without
      commas, padded or not; except that zeros put in front of a minus sign make it unreadable. */
  lemma TextReadsBack(signed: bool, commas: bool, ljust: bool, zjust: bool, base: int, width: int, capitals: bool, p: nat)
    requires p < WORD && 2 <= base <= 16
    ensures Read(Text(signed, commas, ljust, zjust, base, width, capitals, p), base) == Some(SignedValue(signed, p))
       <==> !(zjust && !ljust && Negative(signed, p) && width > |Filled(signed, p, base, commas, capitals)|)
  {
    hide Body, Reverse, ReadDigits, Read, Text, Plain;
    var m, neg := Magnitude(signed, p), Negative(signed, p);
    var r := Reverse(Body(m, base, commas, capitals));
    var t := Sign(neg) + r;
    var n := Missing(width, |t|);
    TextParts(signed, commas, ljust, zjust, base, width, capitals, p);
    ReversedBody(m, base, commas, capitals);
    if ljust {
      ReadSpaced(m, r, neg, 0, n, base);
      assert Repeat(' ', 0) + t + Repeat(' ', n) == t + Repeat(' ', n);
    } else if !zjust || n == 0 {
      ReadSpaced(m, r, neg, n, 0, base);
      assert Repeat(' ', n) + t + Repeat(' ', 0) == Repeat(' ', n) + t;
      assert n == 0 ==> Repeat('0', n) + t == Repeat(' ', n) + t;
    } else {
      ReadZeroed(m, r, neg, n, base);
    }
  }

  /** For example, -5 in a field of four, padded with zeros: the sign follows the zeros. */
  lemma SignAfterZeros(p: nat)
    requires p == WORD - 5
    ensures Text(true, false, false, true, 10, 4, false, p) == "00-5"
    ensures Read("00-5", 10) != Some(SignedValue(true, p)) == Some(-5)
  {
    hide Read, Reverse;
    FiveIsDigit();
    TextParts(true, false, false, true, 10, 4, false, p);
    assert Repeat('0', 2) + "-5" == "00-5";
    TextReadsBack(true, false, false, true, 10, 4, false, p);
  }

  lemma FiveIsDigit()
    ensures Body(5, 10, false, false) == "5" && Reverse("5") == "5"
  {
    assert Emit(5, 0, 0, 10, false, false) == "5" + Emit(0, 1, 0, 10, false, false);
    ReversePush('5', "");
    assert ['5'] + "" == "5";
  }

  // ----- in place

  /** ULong_width. */
  method WidthOf(n: nat) returns (width: nat)
    ensures width == UlongWidth(n)
  {
    var w, rest := 0, n;
    while rest > 0
      invariant w + NumDigits(rest) == NumDigits(n) && (rest > 0 || w > 0 || n == 0)
    {
      rest := rest / 10;
      w := w + 1;
    }
    if w == 0 {
      w := 1;
    }
    width := w + (w - 1) / 3;
  }

  lemma OneBitLess(p: nat, k: nat, base: nat)
    requires 0 < p < Pow2(k) && base >= 2
    ensures k > 0 && Quot(p, base) < Pow2(k - 1)
  {
    hide Quot, Rem;
    Quot2(p, base);
    assert Pow2(k) == 2 * Pow2(k - 1);
  }

  lemma {:induction false} EmitFits(p: nat, ind: nat, nc: nat, k: nat, base: nat, commas: bool, capitals: bool)
    requires 2 <= base <= 16 && nc <= ind && p < Pow2(k) && (ind == 0 || 3 * nc < ind - nc)
    ensures 3 * (ind + |Emit(p, ind, nc, base, commas, capitals)|) <= 4 * (ind - nc + k)
    decreases p
  {
    hide Digit, Quot, Rem, Pow2;
    if p > 0 {
      Quot2(p, base);
      OneBitLess(p, k, base);
      if CommaDue(ind, nc, base, commas) {
        EmitFits(Quot(p, base), ind + 2, nc + 1, k - 1, base, commas, capitals);
      } else {
        EmitFits(Quot(p, base), ind + 1, nc, k - 1, base, commas, capitals);
      }
    }
  }

  /** At most 64 digits with their commas, and a sign. */
  lemma FilledFits(signed: bool, p: nat, base: nat, commas: bool, capitals: bool)
    requires p < WORD && 2 <= base <= 16
    ensures |Body(Magnitude(signed, p), base, commas, capitals)| <= 85
  {
    hide Emit;
    assert Pow2(64) == WORD by {
      Pow2Add(32, 32);
      Pow2Is32();
    }
    if Magnitude(signed, p) > 0 {
      EmitFits(Magnitude(signed, p), 0, 0, 64, base, commas, capitals);
    }
  }

  /** What one turn of the loop adds. */
  function Chunk(d: nat, ind: nat, nc: nat, base: nat, commas: bool, capitals: bool): (s: string)
    requires d < 16 && nc <= ind
    ensures |s| == if CommaDue(ind, nc, base, commas) then 2 else 1
  {
    (if CommaDue(ind, nc, base, commas) then [','] else []) + [Digit(d, capitals)]
  }

  lemma EmitStep(p: nat, ind: nat, nc: nat, base: nat, commas: bool, capitals: bool)
    requires 2 <= base <= 16 && nc <= ind
    ensures p == 0 ==> Emit(p, ind, nc, base, commas, capitals) == ""
    ensures p > 0 ==> Quot(p, base) < p
    ensures p > 0 ==>
              (var s := Chunk(Rem(p, base), ind, nc, base, commas, capitals);
               Emit(p, ind, nc, base, commas, capitals) == s + Emit(Quot(p, base), ind + |s|, nc + |s| - 1, base, commas, capitals))
  {
    Quot2(p, base);
  }

  lemma JoinChunk(s: string, t: string, u: string)
    ensures s + (t + u) == (s + t) + u && |s + t| <= |s + (t + u)|
  {
  }

  method PutChunk(buf: array<char>, ind0: nat, nc0: nat, d: nat, base: nat, commas: bool, capitals: bool)
      returns (ind: nat, nc: nat)
    requires d < 16 && nc0 <= ind0 && ind0 + |Chunk(d, ind0, nc0, base, commas, capitals)| <= buf.Length
    modifies buf
    ensures ind == ind0 + |Chunk(d, ind0, nc0, base, commas, capitals)| && nc == nc0 + (ind - ind0) - 1
    ensures buf[..ind] == old(buf[..ind0]) + Chunk(d, ind0, nc0, base, commas, capitals)
  {
    hide Digit;
    ind, nc := ind0, nc0;
    if CommaDue(ind, nc, base, commas) {
      buf[ind] := ',';
      ind := ind + 1;
      nc := nc + 1;
    }
    buf[ind] := Digit(d, capitals);
    ind := ind + 1;
  }

  /** The loop that fills the buffer with digits and commas. */
  method EmitDigits(buf: array<char>, p: nat, base: nat, commas: bool, capitals: bool) returns (ind: nat)
    requires 2 <= base <= 16 && |Emit(p, 0, 0, base, commas, capitals)| <= buf.Length
    modifies buf
    ensures ind <= buf.Length && buf[..ind] == Emit(p, 0, 0, base, commas, capitals)
  {
    hide Digit, CommaDue, Emit, Chunk, Quot, Rem;
    var rest: nat, nc: nat := p, 0;
    ind := 0;
    ghost var all := Emit(p, 0, 0, base, commas, capitals);
    while rest > 0
      invariant nc <= ind <= |all| && all == buf[..ind] + Emit(rest, ind, nc, base, commas, capitals)
      decreases rest
    {
      EmitStep(rest, ind, nc, base, commas, capitals);
      ghost var done, chunk := buf[..ind], Chunk(Rem(rest, base), ind, nc, base, commas, capitals);
      ind, nc := PutChunk(buf, ind, nc, Rem(rest, base), base, commas, capitals);
      rest := Quot(rest, base);
      JoinChunk(done, chunk, Emit(rest, ind, nc, base, commas, capitals));
    }
    EmitStep(0, ind, nc, base, commas, capitals);
  }

  method FillDigits(buf: array<char>, p: nat, base: nat, commas: bool, capitals: bool) returns (ind: nat)
    requires 2 <= base <= 16 && |Body(p, base, commas, capitals)| <= buf.Length
    modifies buf
    ensures ind <= buf.Length && buf[..ind] == Body(p, base, commas, capitals)
  {
    hide Emit;
    if p == 0 {
      buf[0] := '0';
      return 1;
    }
    ind := EmitDigits(buf, p, base, commas, capitals);
  }

  /** Padding on the left, which is at the end of the buffer. */
  method PadLeft(buf: array<char>, ind0: nat, width: int, c: char) returns (ind: nat)
    requires ind0 <= buf.Length && width <= buf.Length
    modifies buf
    ensures ind <= buf.Length && buf[..ind] == old(buf[..ind0]) + Repeat(c, Missing(width, ind0))
  {
    ind := ind0;
    while ind < width
      invariant ind0 <= ind <= buf.Length && (ind <= width || ind == ind0)
      invariant buf[..ind] == old(buf[..ind0]) + Repeat(c, ind - ind0)
    {
      buf[ind] := c;
      ind := ind + 1;
      assert buf[..ind] == buf[..ind - 1] + [c];
    }
  }

  /** Digits, sign, and padding on the left. */
  method FillBuffer(buf: array<char>, signed: bool, commas: bool, ljust: bool, zjust: bool, base: nat, width: int,
      capitals: bool, p0: nat) returns (ind: nat)
    requires p0 < WORD && 2 <= base <= 16 && buf.Length >= 90 && width < buf.Length
    modifies buf
    ensures ind <= buf.Length
    ensures var filled := Filled(signed, p0, base, commas, capitals);
      buf[..ind] == if ljust then filled else filled + Repeat(if zjust then '0' else ' ', Missing(width, |filled|))
  {
    hide Body;
    var p, neg := p0, false;
    if signed && p >= 0x8000_0000_0000_0000 {
      p := WORD - p;
      neg := true;
    }
    FilledFits(signed, p0, base, commas, capitals);
    ind := FillDigits(buf, p, base, commas, capitals);
    if neg {
      buf[ind] := '-';
      ind := ind + 1;
    }
    assert buf[..ind] == Filled(signed, p0, base, commas, capitals);
    if width > 0 && !ljust {
      ind := PadLeft(buf, ind, width, if zjust then '0' else ' ');
    }
  }

  /** myvprintf_int64: sent is what goes to the sink, one character at a time. */
  method PrintInt64(signed: bool, commas: bool, ljust: bool, zjust: bool, base: int, width: int, capitals: bool, p: nat)
      returns (ret: nat, sent: string)
    requires p < WORD
    ensures sent == Text(signed, commas, ljust, zjust, base, width, capitals, p) && ret == |sent|
  {
    hide Filled, Reverse;
    ret, sent := 0, "";
    if base < 2 || base > 16 {
      return;
    }
    var buf := new char[if width + 1 > 90 then width + 1 else 90](_ => '0');
    var ind := FillBuffer(buf, signed, commas, ljust, zjust, base, width, capitals, p);
    ret := ind;
    sent := SendReversed(buf, ind);
    ghost var filled := Filled(signed, p, base, commas, capitals);
    if width > 0 && ljust {
      while ind < width
        invariant |filled| <= ind && (ind <= width || ind == |filled|)
        invariant ret == ind && sent == Reverse(filled) + Repeat(' ', ind - |filled|)
      {
        ret := ret + 1;
        sent := sent + [' '];
        ind := ind + 1;
      }
    }
  }

  /** The copy from the end of the buffer to its start. */
  method SendReversed(buf: array<char>, ind: nat) returns (sent: string)
    requires ind <= buf.Length
    ensures sent == Reverse(buf[..ind])
  {
    sent := "";
    var i := ind - 1;
    while i >= 0
      invariant -1 <= i < ind && sent == Reverse(buf[i + 1..ind])
    {
      assert buf[i..ind] == [buf[i]] + buf[i + 1..ind];
      ReversePush(buf[i], buf[i + 1..ind]);
      sent := sent + [buf[i]];
      i := i - 1;
    }
  }
}
