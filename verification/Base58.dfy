/** Base58 and Base58Check (address/base58.go): big-endian numerals re-based digit by digit, with
    leading zeros carried over one for one. */
module Base58 {
  import opened Arith

  type Byte = x: int | 0 <= x < 256

  /** Digits and letters without 0, I, O and l. */
  const ALPHABET: string := "123456789" + "ABCDEFGH" + "JKLMN" + "PQRSTUVWXYZ" + "abcdefghijk" + "mnopqrstuvwxyz"

  // ---------------------------------------------------------------- numerals

  ghost predicate Digits(ds: seq<nat>, base: nat) {
    forall i :: 0 <= i < |ds| ==> 0 <= ds[i] < base
  }

  /** Big-endian value. */
  function Value(ds: seq<nat>, base: nat): nat {
    if ds == [] then 0 else Value(ds[..|ds| - 1], base) * base + ds[|ds| - 1]
  }

  function Quotient(x: nat, base: nat): nat
    requires base >= 2
  {
    x / base
  }

  function Remainder(x: nat, base: nat): nat
    requires base >= 2
  {
    x % base
  }

  lemma QuotientRemainder(x: nat, base: nat)
    requires base >= 2
    ensures x == Quotient(x, base) * base + Remainder(x, base) && Remainder(x, base) < base
    ensures x > 0 ==> Quotient(x, base) < x
    ensures Quotient(x, base) == 0 ==> Remainder(x, base) == x
  {
    DivMod(x, base);
    hide Quotient, Remainder;
    var q := Quotient(x, base);
    MulOrder(2, base, q);
  }

  lemma DivMod(x: nat, base: nat)
    requires base >= 2
    ensures x == Quotient(x, base) * base + Remainder(x, base) && Remainder(x, base) < base
  {
  }

  /** The digits of a number, most significant first; none for zero. */
  function Numeral(x: nat, base: nat): seq<nat>
    requires base >= 2
  {
    if x == 0 then []
    else
      QuotientRemainder(x, base);
      Numeral(Quotient(x, base), base) + [Remainder(x, base)]
  }

  function Zeros(n: nat): (r: seq<nat>)
    ensures |r| == n && forall i :: 0 <= i < n ==> r[i] == 0
  {
    seq(n, _ => 0)
  }

  function LeadingZeros(ds: seq<nat>): (n: nat)
    ensures n <= |ds| && (forall i :: 0 <= i < n ==> ds[i] == 0) && (n < |ds| ==> ds[n] != 0)
  {
    if ds == [] || ds[0] != 0 then 0 else 1 + LeadingZeros(ds[1..])
  }

  /** Re-basing keeps the value and the number of leading zeros. */
  function Rebase(ds: seq<nat>, src: nat, dst: nat): seq<nat>
    requires dst >= 2
  {
    Zeros(LeadingZeros(ds)) + Numeral(Value(ds, src), dst)
  }

  lemma ValueAppend(ds: seq<nat>, d: nat, base: nat)
    ensures Value(ds + [d], base) == Value(ds, base) * base + d
  {
    assert (ds + [d])[..|ds|] == ds;
  }

  ghost predicate Proper(ds: seq<nat>, x: nat, base: nat) {
    Digits(ds, base) && Value(ds, base) == x && (x > 0 ==> ds != [] && ds[0] != 0)
  }

  lemma ProperGrows(front: seq<nat>, q: nat, r: nat, base: nat)
    requires Proper(front, q, base) && r < base && (q == 0 ==> front == [])
    ensures Proper(front + [r], q * base + r, base)
  {
    ValueAppend(front, r, base);
    if q > 0 {
      assert (front + [r])[0] == front[0];
    }
  }

  lemma {:induction false} NumeralIsProper(x: nat, base: nat)
    requires base >= 2
    ensures Proper(Numeral(x, base), x, base)
    ensures x == 0 ==> Numeral(x, base) == []
  {
    hide Quotient, Remainder;
    if x > 0 {
      hide Proper;
      QuotientRemainder(x, base);
      NumeralIsProper(Quotient(x, base), base);
      ProperGrows(Numeral(Quotient(x, base), base), Quotient(x, base), Remainder(x, base), base);
    }
  }

  lemma MulOrder(x: nat, y: nat, base: nat)
    ensures x <= y ==> x * base <= y * base
  {
  }

  lemma MulGap(x: nat, y: nat, base: nat)
    ensures x < y ==> x * base + base <= y * base
  {
    MulOrder(x + 1, y, base);
  }

  lemma DivideOut(q: nat, r: nat, base: nat)
    requires base >= 2 && r < base
    ensures Quotient(q * base + r, base) == q && Remainder(q * base + r, base) == r
  {
    hide Quotient, Remainder;
    var x := q * base + r;
    QuotientRemainder(x, base);
    MulGap(q, Quotient(x, base), base);
    MulGap(Quotient(x, base), q, base);
  }

  /** A digit string without a leading zero is the numeral of its value. */
  lemma {:induction false} ProperIsNumeral(ds: seq<nat>, base: nat)
    requires base >= 2 && Digits(ds, base) && (ds != [] ==> ds[0] != 0)
    ensures Numeral(Value(ds, base), base) == ds
    ensures ds != [] ==> Value(ds, base) > 0
  {
    hide Quotient, Remainder;
    if ds != [] {
      var n := |ds| - 1;
      ProperIsNumeral(ds[..n], base);
      var q := Value(ds[..n], base);
      DivideOut(q, ds[n], base);
      if n > 0 {
        Positive(q, base);
      }
      assert ds == ds[..n] + [ds[n]];
    }
  }

  lemma Positive(q: nat, base: nat)
    requires q > 0 && base > 0
    ensures q * base > 0
  {
  }

  lemma {:induction false} ZerosAddNothing(n: nat, ds: seq<nat>, base: nat)
    ensures Value(Zeros(n) + ds, base) == Value(ds, base)
  {
    var all := Zeros(n) + ds;
    if ds != [] {
      var k := |ds| - 1;
      assert all[..|all| - 1] == Zeros(n) + ds[..k];
      ZerosAddNothing(n, ds[..k], base);
    } else if n > 0 {
      assert all[..|all| - 1] == Zeros(n - 1) + ds;
      ZerosAddNothing(n - 1, ds, base);
      assert Value(all, base) == Value(all[..|all| - 1], base) * base + 0;
    }
  }

  lemma {:induction false} LeadingZerosAre(n: nat, ds: seq<nat>)
    requires ds != [] ==> ds[0] != 0
    ensures LeadingZeros(Zeros(n) + ds) == n
  {
    if n > 0 {
      assert (Zeros(n) + ds)[1..] == Zeros(n - 1) + ds;
      LeadingZerosAre(n - 1, ds);
    }
  }

  lemma SplitZeros(ds: seq<nat>)
    ensures
      var z := LeadingZeros(ds);
      ds == Zeros(z) + ds[z..] && (ds[z..] != [] ==> ds[z..][0] != 0)
  {
    hide LeadingZeros;
  }

  /** Re-basing to another base and back is the identity on digit strings of the first base. */
  lemma RebaseRoundTrip(ds: seq<nat>, src: nat, dst: nat)
    requires src >= 2 && dst >= 2 && Digits(ds, src)
    ensures Digits(Rebase(ds, src, dst), dst)
    ensures Rebase(Rebase(ds, src, dst), dst, src) == ds
  {
    hide Value, Numeral, LeadingZeros, Zeros, Quotient, Remainder;
    var z := LeadingZeros(ds);
    var rest := ds[z..];
    SplitZeros(ds);
    ZerosAddNothing(z, rest, src);
    ProperIsNumeral(rest, src);
    var x := Value(ds, src);
    var there := Numeral(x, dst);
    NumeralIsProper(x, dst);
    NoNumeral(src, dst);
    LeadingZerosAre(z, there);
    ZerosAddNothing(z, there, dst);
  }

  lemma NoNumeral(src: nat, dst: nat)
    requires src >= 2 && dst >= 2
    ensures Numeral(0, dst) == [] && Value([], src) == 0
  {
  }

  // ---------------------------------------------------------------- the alphabet

  /** The alphabet by its ranges, which ascend. */
  function CharOf(d: nat): char
    requires d < 58
  {
    if d < 9 then '1' + d as char
    else if d < 17 then 'A' + (d - 9) as char
    else if d < 22 then 'J' + (d - 17) as char
    else if d < 33 then 'P' + (d - 22) as char
    else if d < 44 then 'a' + (d - 33) as char
    else 'm' + (d - 44) as char
  }

  lemma Numbers(d: nat)
    requires d < 9
    ensures "123456789"[d] == '1' + d as char
  {
  }

  lemma UpperLetters(d: nat)
    ensures d < 8 ==> "ABCDEFGH"[d] == 'A' + d as char
    ensures d < 5 ==> "JKLMN"[d] == 'J' + d as char
    ensures d < 11 ==> "PQRSTUVWXYZ"[d] == 'P' + d as char
  {
  }

  lemma LowerLetters(d: nat)
    ensures d < 11 ==> "abcdefghijk"[d] == 'a' + d as char
    ensures d < 14 ==> "mnopqrstuvwxyz"[d] == 'm' + d as char
  {
  }

  lemma AlphabetIsRanges(d: nat)
    requires d < 58
    ensures |ALPHABET| == 58 && ALPHABET[d] == CharOf(d)
  {
    if d < 9 {
      Numbers(d);
    } else if d < 33 {
      UpperLetters(if d < 17 then d - 9 else if d < 22 then d - 17 else d - 22);
    } else {
      LowerLetters(if d < 44 then d - 33 else d - 44);
    }
  }

  lemma AlphabetIsDistinct(i: nat, j: nat)
    requires i < 58 && j < 58 && i != j
    ensures |ALPHABET| == 58 && ALPHABET[i] != ALPHABET[j]
  {
    AlphabetIsRanges(i);
    AlphabetIsRanges(j);
  }

  /** The position of a character, by search. */
  function IndexFrom(table: string, c: char, start: nat): (r: Option<nat>)
    requires start <= |table|
    ensures r.Some? ==> r.value < |table| && table[r.value] == c
    ensures r.None? ==> forall i :: start <= i < |table| ==> table[i] != c
    decreases |table| - start
  {
    if start == |table| then None
    else if table[start] == c then Some(start)
    else IndexFrom(table, c, start + 1)
  }

  function IndexOf(c: char): Option<nat> {
    IndexFrom(ALPHABET, c, 0)
  }

  lemma AlphabetSize()
    ensures |ALPHABET| == 58 && ALPHABET[0] == '1'
  {
    AlphabetIsRanges(0);
  }

  lemma IndexOfDigit(d: nat)
    requires d < 58
    ensures |ALPHABET| == 58 && IndexOf(ALPHABET[d]) == Some(d)
  {
    AlphabetSize();
    hide ALPHABET;
    var found := IndexFrom(ALPHABET, ALPHABET[d], 0);
    if found.Some? && found.value != d {
      AlphabetIsDistinct(found.value, d);
    }
  }

  // ---------------------------------------------------------------- encoding and decoding

  function Chars(ds: seq<nat>): string
    requires Digits(ds, 58)
  {
    AlphabetSize();
    seq(|ds|, i requires 0 <= i < |ds| => ALPHABET[ds[i]])
  }

  /** The digits a string stands for, when all its characters are in the alphabet. */
  function Indices(s: string): Option<seq<nat>> {
    if s == "" then Some([])
    else
      var before :- Indices(s[..|s| - 1]);
      var last :- IndexOf(s[|s| - 1]);
      Some(before + [last])
  }

  function Encoded(input: seq<Byte>): string {
    RebaseRoundTrip(input, 256, 58);
    Chars(Rebase(input, 256, 58))
  }

  function Decoded(s: string): Option<seq<Byte>> {
    var ds :- Indices(s);
    IndicesAreDigits(s);
    RebaseRoundTrip(ds, 58, 256);
    Some(Rebase(ds, 58, 256))
  }

  lemma {:induction false} IndicesAreDigits(s: string)
    requires Indices(s).Some?
    ensures
      var ds := Indices(s).value;
      |ds| == |s| && Digits(ds, 58) && Chars(ds) == s && forall i :: 0 <= i < |s| ==> IndexOf(s[i]) == Some(ds[i])
  {
    AlphabetSize();
    hide ALPHABET;
    if s != "" {
      var n := |s| - 1;
      IndicesAreDigits(s[..n]);
      assert s == s[..n] + [s[n]];
    }
  }

  lemma {:induction false} IndicesOfChars(ds: seq<nat>)
    requires Digits(ds, 58)
    ensures Indices(Chars(ds)) == Some(ds)
  {
    AlphabetSize();
    hide ALPHABET;
    if ds != [] {
      var n := |ds| - 1;
      IndicesOfChars(ds[..n]);
      assert Chars(ds)[..n] == Chars(ds[..n]);
      IndexOfDigit(ds[n]);
      assert ds == ds[..n] + [ds[n]];
    } else {
      assert Chars(ds) == "";
    }
  }

  /** Decoding undoes encoding, on every byte string. */
  lemma DecodeEncoded(input: seq<Byte>)
    ensures Decoded(Encoded(input)) == Some(input)
  {
    RebaseRoundTrip(input, 256, 58);
    hide Rebase, Chars, Indices;
    IndicesOfChars(Rebase(input, 256, 58));
  }

  /** Encoding undoes decoding, on every string over the alphabet; other strings do not decode. */
  lemma EncodeDecoded(s: string)
    ensures Decoded(s).Some? <==> forall i :: 0 <= i < |s| ==> IndexOf(s[i]).Some?
    ensures Decoded(s).Some? ==> Encoded(Decoded(s).value) == s
  {
    DecodesOrNot(s);
    if Decoded(s).Some? {
      IndicesAreDigits(s);
      RebaseRoundTrip(Indices(s).value, 58, 256);
      hide Rebase, Chars, Indices, IndexOf;
    }
  }

  lemma {:induction false} DecodesOrNot(s: string)
    ensures Indices(s).Some? <==> forall i :: 0 <= i < |s| ==> IndexOf(s[i]).Some?
  {
    hide IndexOf;
    if s != "" {
      var n := |s| - 1;
      DecodesOrNot(s[..n]);
      assert s == s[..n] + [s[n]];
    }
  }

  // ---------------------------------------------------------------- the loops

  /** What the division loop has appended so far: the digits `ds`, last one first. */
  ghost predicate Backwards(out: string, ds: seq<nat>) {
    |out| == |ds| && forall k :: 0 <= k < |ds| ==> ds[k] < |ALPHABET| && out[|ds| - 1 - k] == ALPHABET[ds[k]]
  }

  /** Repeated division by 58. */
  method DigitsBackwards(value: nat) returns (out: string)
    ensures Backwards(out, Numeral(value, 58))
  {
    AlphabetSize();
    hide ALPHABET, Quotient, Remainder;
    var x := value;
    ghost var ds: seq<nat> := [];
    out := "";
    while x > 0
      invariant Numeral(value, 58) == Numeral(x, 58) + ds && Backwards(out, ds)
      decreases x
    {
      QuotientRemainder(x, 58);
      var mod := Remainder(x, 58);
      AppendBackwards(out, ds, mod);
      out := out + [ALPHABET[mod]];
      ds := [mod] + ds;
      x := Quotient(x, 58);
    }
    assert Numeral(0, 58) + ds == ds;
  }

  /** One '1' per leading zero byte. */
  method ZerosBackwards(input: seq<Byte>, text: string, ghost ds: seq<nat>) returns (out: string)
    requires Backwards(text, ds)
    ensures Backwards(out, Zeros(LeadingZeros(input)) + ds)
  {
    AlphabetSize();
    hide ALPHABET, Backwards;
    out := text;
    var zeros := 0;
    assert Zeros(0) + ds == ds;
    while zeros < |input| && input[zeros] == 0
      invariant zeros <= |input| && (forall k :: 0 <= k < zeros ==> input[k] == 0)
      invariant Backwards(out, Zeros(zeros) + ds)
    {
      AppendBackwards(out, Zeros(zeros) + ds, 0);
      assert [0] + (Zeros(zeros) + ds) == Zeros(zeros + 1) + ds;
      out := out + [ALPHABET[0]];
      zeros := zeros + 1;
    }
    CountedZeros(input, zeros);
  }

  /** The digits by division, the zeros, and a reversal in place. */
  method Base58Encode(input: seq<Byte>) returns (out: string)
    ensures out == Encoded(input)
  {
    AlphabetSize();
    RebaseRoundTrip(input, 256, 58);
    hide ALPHABET, Value, Numeral, LeadingZeros;
    out := DigitsBackwards(Value(input, 256));
    out := ZerosBackwards(input, out, Numeral(Value(input, 256), 58));
    out := ReverseInPlace(out);
    BackwardsReversed(out, Rebase(input, 256, 58));
  }

  lemma AppendBackwards(out: string, ds: seq<nat>, d: nat)
    requires Backwards(out, ds) && d < |ALPHABET|
    ensures Backwards(out + [ALPHABET[d]], [d] + ds)
  {
    hide ALPHABET;
  }

  lemma BackwardsReversed(out: string, ds: seq<nat>)
    requires Digits(ds, 58) && |out| == |ds|
    requires forall k :: 0 <= k < |ds| ==> ds[k] < |ALPHABET| && out[k] == ALPHABET[ds[k]]
    ensures out == Chars(ds)
  {
    hide ALPHABET;
  }

  method ReverseInPlace(text: string) returns (out: string)
    ensures |out| == |text| && forall k :: 0 <= k < |text| ==> out[k] == text[|text| - 1 - k]
  {
    out := text;
    var i, j := 0, |text| - 1;
    while i < j
      invariant 0 <= i <= j + 1 && i + j == |text| - 1 && |out| == |text|
      invariant forall k :: i <= k <= j ==> out[k] == text[k]
      invariant forall k :: 0 <= k < i ==> out[k] == text[|text| - 1 - k]
      invariant forall k :: j < k < |text| ==> out[k] == text[|text| - 1 - k]
    {
      out := out[i := out[j]][j := out[i]];
      i, j := i + 1, j - 1;
    }
  }

  method Base58Decode(input: string) returns (r: Option<seq<Byte>>)
    ensures r == Decoded(input)
  {
    var x := 0;
    assert Indices(input[..0]) == Some([]) && Value([], 58) == 0;
    hide *;
    for i := 0 to |input|
      invariant Indices(input[..i]).Some? && x == Value(Indices(input[..i]).value, 58)
    {
      var index := IndexOf(input[i]);
      if index.None? {
        DecodesOrNot(input);
        return None;
      }
      OneMoreIndex(input, i);
      ValueAppend(Indices(input[..i]).value, index.value, 58);
      x := x * 58 + index.value;
    }
    assert input[..|input|] == input;
    var leading := 0;
    while leading < |input| && input[leading] == '1'
      invariant leading <= |input| && forall k :: 0 <= k < leading ==> input[k] == '1'
    {
      leading := leading + 1;
    }
    DecodedIs(input, x, leading);
    r := Some(Zeros(leading) + Numeral(x, 256));
  }

  /** Leading ones are leading zeros. */
  lemma DecodedIs(input: string, x: nat, leading: nat)
    requires Indices(input).Some? && x == Value(Indices(input).value, 58)
    requires leading <= |input| && (forall k :: 0 <= k < leading ==> input[k] == '1')
    requires leading < |input| ==> input[leading] != '1'
    ensures Decoded(input) == Some(Zeros(leading) + Numeral(x, 256))
  {
    IndicesAreDigits(input);
    var ds := Indices(input).value;
    RebaseIs(ds, 58, 256);
    hide ALPHABET, IndexOf, LeadingZeros, Numeral, Indices, Value, Rebase, Chars;
    forall k | 0 <= k < |input|
      ensures ds[k] == 0 <==> input[k] == '1'
    {
      FirstLetter(input[k]);
    }
    CountedZeros(ds, leading);
  }

  lemma RebaseIs(ds: seq<nat>, src: nat, dst: nat)
    requires src >= 2 && dst >= 2
    ensures Rebase(ds, src, dst) == Zeros(LeadingZeros(ds)) + Numeral(Value(ds, src), dst)
  {
  }

  lemma OneMoreIndex(s: string, i: nat)
    requires i < |s| && Indices(s[..i]).Some? && IndexOf(s[i]).Some?
    ensures Indices(s[..i + 1]) == Some(Indices(s[..i]).value + [IndexOf(s[i]).value])
  {
    hide IndexOf;
    assert s[..i + 1][..i] == s[..i];
  }

  lemma FirstLetter(c: char)
    ensures c == '1' <==> IndexOf(c) == Some(0)
  {
    AlphabetSize();
    hide ALPHABET;
    IndexOfDigit(0);
  }

  lemma {:induction false} CountedZeros(ds: seq<nat>, n: nat)
    requires n <= |ds| && (forall k :: 0 <= k < n ==> ds[k] == 0) && (n < |ds| ==> ds[n] != 0)
    ensures LeadingZeros(ds) == n
  {
    hide LeadingZeros;
  }

  // ---------------------------------------------------------------- checksums

  /** The first four bytes of a double SHA-256, as an arbitrary function. */
  datatype Checksum = Checksum(of: seq<Byte> -> seq<Byte>) {
    ghost predicate FourBytes() {
      forall p :: |of(p)| == 4
    }
  }

  method CheckEncode(sum: Checksum, payload: seq<Byte>) returns (out: string)
    ensures out == Encoded(payload + sum.of(payload))
  {
    out := Base58Encode(payload + sum.of(payload));
  }

  method CheckDecode(sum: Checksum, encoded: string) returns (r: Option<seq<Byte>>)
    ensures r == Checked(sum, encoded)
  {
    hide Decoded;
    var raw := Base58Decode(encoded);
    if raw.None? || |raw.value| < 5 {
      return None;
    }
    var payload := raw.value[..|raw.value| - 4];
    if raw.value[|raw.value| - 4..] != sum.of(payload) {
      return None;
    }
    return Some(payload);
  }

  function Checked(sum: Checksum, encoded: string): Option<seq<Byte>> {
    var raw :- Decoded(encoded);
    if |raw| < 5 then None
    else
      var payload := raw[..|raw| - 4];
      if raw[|raw| - 4..] == sum.of(payload) then Some(payload) else None
  }

  /** A string decodes to a payload exactly when it is that payload's encoding; the empty payload is
      the only one that does not come back. */
  lemma CheckedExactly(sum: Checksum, encoded: string, payload: seq<Byte>)
    requires sum.FourBytes()
    ensures Checked(sum, encoded) == Some(payload) <==>
            payload != [] && encoded == Encoded(payload + sum.of(payload))
  {
    hide Decoded, Encoded;
    DecodeEncoded(payload + sum.of(payload));
    EncodeDecoded(encoded);
    if Checked(sum, encoded) == Some(payload) {
      var raw := Decoded(encoded).value;
      assert raw == payload + sum.of(payload);
    }
  }
}
