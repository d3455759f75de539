/** International bank account numbers: normal form, display form, and the MOD 97-10 checksum of
    ISO/IEC 7064 as ISO 13616 applies it. */
module Iban {

  // ----- characters -----------------------------------------------------------------

  predicate IsUpper(c: char) { 'A' <= c <= 'Z' }

  predicate IsDigit(c: char) { '0' <= c <= '9' }

  predicate IsAlnum(c: char) { IsUpper(c) || IsDigit(c) }

  predicate AllAlnum(s: string) { forall i | 0 <= i < |s| :: IsAlnum(s[i]) }

  /** What the normal form drops: white space as JavaScript's `\s` reads it, and hyphens. */
  predicate IsSpacing(c: char) {
    || c in {' ', '\t', '\n', '\r', '-', '\U{000B}', '\U{000C}', '\U{00A0}', '\U{1680}', '\U{2028}', '\U{2029}'}
    || c in {'\U{202F}', '\U{205F}', '\U{3000}', '\U{FEFF}'}
    || '\U{2000}' <= c <= '\U{200A}'
  }

  function ToUpper(c: char): char {
    if 'a' <= c <= 'z' then (c as int - 32) as char else c
  }

  // ----- normal and display form ------------------------------------------------------

  function Normalize(raw: string): string {
    if raw == [] then []
    else if IsSpacing(raw[0]) then Normalize(raw[1..])
    else [ToUpper(raw[0])] + Normalize(raw[1..])
  }

  /** Groups of four, a space between groups. */
  function Grouped(s: string): string {
    if |s| <= 4 then s else s[..4] + " " + Grouped(s[4..])
  }

  function Format(raw: string): string {
    Grouped(Normalize(raw))
  }

  /** A string the normal form leaves alone. */
  ghost predicate Normal(s: string) {
    forall i | 0 <= i < |s| :: !IsSpacing(s[i]) && !('a' <= s[i] <= 'z')
  }

  lemma {:induction false} NormalizeIsNormal(raw: string)
    ensures Normal(Normalize(raw))
  {
    if raw != [] {
      NormalizeIsNormal(raw[1..]);
    }
  }

  lemma {:induction false} NormalizeConcat(a: string, b: string)
    ensures Normalize(a + b) == Normalize(a) + Normalize(b)
  {
    if a == [] {
      assert a + b == b;
    } else {
      assert (a + b)[1..] == a[1..] + b;
      NormalizeConcat(a[1..], b);
    }
  }

  lemma {:induction false} NormalizeKeeps(s: string)
    requires Normal(s)
    ensures Normalize(s) == s
  {
    if s != [] {
      NormalizeKeeps(s[1..]);
    }
  }

  lemma {:induction false} NormalizeGrouped(s: string)
    requires Normal(s)
    ensures Normalize(Grouped(s)) == s
  {
    if |s| <= 4 {
      NormalizeKeeps(s);
    } else {
      NormalizeKeeps(s[..4]);
      NormalizeGrouped(s[4..]);
      SpaceDropped(Grouped(s[4..]));
      NormalizeConcat(s[..4], " " + Grouped(s[4..]));
      assert Grouped(s) == s[..4] + (" " + Grouped(s[4..]));
      assert s == s[..4] + s[4..];
    }
  }

  lemma SpaceDropped(s: string)
    ensures Normalize(" " + s) == Normalize(s)
  {
    assert (" " + s)[1..] == s;
  }

  // ----- the number behind the characters -----------------------------------------------

  /** A digit stands for itself, a letter for 10 to 35. */
  function Value(c: char): nat
    requires IsAlnum(c)
  {
    if IsUpper(c) then c as int - 55 else c as int - 48
  }

  /** One decimal place for a digit, two for a letter. */
  function Base(c: char): nat { if IsUpper(c) then 100 else 10 }

  /** The decimal digits a character is written as. */
  function Digits(c: char): (ds: seq<nat>)
    requires IsAlnum(c)
    ensures |ds| == if IsUpper(c) then 2 else 1
    ensures forall i | 0 <= i < |ds| :: ds[i] <= 9
  {
    if IsUpper(c) then [Value(c) / 10, Value(c) % 10] else [Value(c)]
  }

  function Expand(s: string): seq<nat>
    requires AllAlnum(s)
  {
    if s == [] then [] else Expand(s[..|s| - 1]) + Digits(s[|s| - 1])
  }

  /** The integer a row of decimal digits writes. */
  function Decimal(ds: seq<nat>): nat {
    if ds == [] then 0 else Decimal(ds[..|ds| - 1]) * 10 + ds[|ds| - 1]
  }

  /** The first four characters move to the end. */
  function Rearranged(iban: string): string
    requires |iban| >= 4
  {
    iban[4..] + iban[..4]
  }

  /** The same integer read off the characters directly: each shifts what came before by one
      place or two. */
  function Number(s: string): nat {
    if s == [] then 0 else
    var c := s[|s| - 1];
    Number(s[..|s| - 1]) * Base(c) + if IsAlnum(c) then Value(c) else 0
  }

  /** The factor by which following characters shift what precedes them. */
  function Shift(s: string): nat {
    if s == [] then 1 else Shift(s[..|s| - 1]) * Base(s[|s| - 1])
  }

  lemma DecimalSnoc(ds: seq<nat>, d: nat)
    ensures Decimal(ds + [d]) == Decimal(ds) * 10 + d
  {
    assert (ds + [d])[..|ds|] == ds;
  }

  lemma DecimalAppend(ds: seq<nat>, c: char)
    requires IsAlnum(c)
    ensures Decimal(ds + Digits(c)) == Decimal(ds) * Base(c) + Value(c)
  {
    if IsUpper(c) {
      DecimalSnoc(ds, Value(c) / 10);
      DecimalSnoc(ds + [Value(c) / 10], Value(c) % 10);
      assert ds + Digits(c) == ds + [Value(c) / 10] + [Value(c) % 10];
    } else {
      DecimalSnoc(ds, Value(c));
    }
  }

  /** The checksum as the app streams it, digit by digit, against the whole integer. */
  method Mod97(iban: string) returns (remainder: nat)
    requires |iban| >= 4 && AllAlnum(iban)
    ensures AllAlnum(Rearranged(iban))
    ensures remainder == Decimal(Expand(Rearranged(iban))) % 97
  {
    hide Decimal, Expand;
    var rearranged := Rearranged(iban);
    remainder := 0;
    ghost var done: seq<nat> := [];
    NothingExpanded(rearranged);
    for i := 0 to |rearranged|
      invariant done == Expand(rearranged[..i])
      invariant remainder == Decimal(done) % 97
    {
      var value := Digits(rearranged[i]);
      ExpandNext(rearranged, i);
      assert done + value[..0] == done;
      for j := 0 to |value|
        invariant remainder == Decimal(done + value[..j]) % 97
      {
        StreamDigit(done, value, j);
        remainder := (remainder * 10 + value[j]) % 97;
      }
      assert value[..|value|] == value;
      done := done + value;
    }
    assert rearranged[..|rearranged|] == rearranged;
  }

  lemma NothingExpanded(s: string)
    ensures Expand(s[..0]) == [] && Decimal([]) == 0
  {
  }

  lemma ExpandNext(s: string, i: nat)
    requires AllAlnum(s) && i < |s|
    ensures Expand(s[..i + 1]) == Expand(s[..i]) + Digits(s[i])
  {
    assert s[..i + 1][..i] == s[..i];
  }

  lemma StreamDigit(before: seq<nat>, value: seq<nat>, j: nat)
    requires j < |value|
    ensures Decimal(before + value[..j + 1]) % 97 == (Decimal(before + value[..j]) % 97 * 10 + value[j]) % 97
  {
    assert before + value[..j + 1] == (before + value[..j]) + [value[j]];
    DecimalSnoc(before + value[..j], value[j]);
    TimesTen(Decimal(before + value[..j]), value[j]);
  }

  lemma TimesTen(n: nat, d: nat)
    ensures (n % 97 * 10 + d) % 97 == (n * 10 + d) % 97
  {
  }

  // ----- validation ---------------------------------------------------------------------

  const SEPA_LENGTH: map<string, nat> := map[
    "AD" := 24, "AT" := 20, "AL" := 28, "BE" := 16, "BG" := 22, "CH" := 21, "CY" := 28, "CZ" := 24, "DE" := 22, "DK" := 18,
    "EE" := 20, "ES" := 24, "FI" := 18, "FR" := 27, "GB" := 22, "GI" := 23, "GR" := 27, "HR" := 21, "HU" := 28, "IE" := 22,
    "IS" := 26, "IT" := 27, "LI" := 21, "LT" := 20, "LU" := 20, "LV" := 21, "MC" := 27, "MD" := 24, "ME" := 22, "MK" := 19,
    "MT" := 31, "NL" := 18, "NO" := 15, "PL" := 28, "PT" := 25, "RO" := 24, "RS" := 22, "SE" := 24, "SI" := 19, "SK" := 24,
    "SM" := 27, "VA" := 22]

  datatype IbanError = Empty | TooShort | BadChars | NotSepa | BadLength | BadChecksum

  datatype IbanResult = Accepted(normalized: string, country: string, last4: string) | Rejected(error: IbanError)

  function Verdict(raw: string): IbanResult {
    var iban := Normalize(raw);
    if iban == [] then Rejected(Empty)
    else if !AllAlnum(iban) then Rejected(BadChars)
    else if |iban| < 5 then Rejected(TooShort)
    else if iban[..2] !in SEPA_LENGTH then Rejected(NotSepa)
    else if |iban| != SEPA_LENGTH[iban[..2]] then Rejected(BadLength)
    else if !IsDigit(iban[2]) || !IsDigit(iban[3]) then Rejected(BadChecksum)
    else if Number(Rearranged(iban)) % 97 != 1 then Rejected(BadChecksum)
    else Accepted(iban, iban[..2], iban[|iban| - 4..])
  }

  method Validate(raw: string) returns (r: IbanResult)
    ensures r == Verdict(raw)
  {
    var iban := Normalize(raw);
    if iban == [] {
      return Rejected(Empty);
    }
    if !AllAlnum(iban) {
      return Rejected(BadChars);
    }
    if |iban| < 5 {
      return Rejected(TooShort);
    }
    var country := iban[..2];
    if country !in SEPA_LENGTH {
      return Rejected(NotSepa);
    }
    if |iban| != SEPA_LENGTH[country] {
      return Rejected(BadLength);
    }
    if !(IsDigit(iban[2]) && IsDigit(iban[3])) {
      return Rejected(BadChecksum);
    }
    var remainder := Mod97(iban);
    NumberIsDecimal(Rearranged(iban));
    if remainder != 1 {
      return Rejected(BadChecksum);
    }
    return Accepted(iban, country, iban[|iban| - 4..]);
  }

  /** The display form reads back as the number it shows. */
  lemma FormatReadsBack(raw: string)
    ensures Normalize(Format(raw)) == Normalize(raw)
    ensures Verdict(Format(raw)) == Verdict(raw)
  {
    NormalizeIsNormal(raw);
    NormalizeGrouped(Normalize(raw));
  }

  /** The display form is the normal form with a space after every fourth character but the last. */
  lemma {:induction false} GroupedShape(s: string)
    ensures |Grouped(s)| == |s| + (if s == [] then 0 else (|s| - 1) / 4)
    ensures forall i | 0 <= i < |Grouped(s)| :: 0 <= i - i / 5 < |s| && Grouped(s)[i] == if i % 5 == 4 then ' ' else s[i - i / 5]
  {
    if |s| > 4 {
      GroupedShape(s[4..]);
      var rest := Grouped(s[4..]);
      forall i | 0 <= i < |Grouped(s)|
        ensures 0 <= i - i / 5 < |s| && Grouped(s)[i] == if i % 5 == 4 then ' ' else s[i - i / 5]
      {
        if i >= 5 {
          assert Grouped(s)[i] == rest[i - 5];
          assert (i - 5) / 5 == i / 5 - 1 && (i - 5) % 5 == i % 5;
        }
      }
    }
  }

  function ToLower(c: char): char {
    if IsUpper(c) then (c as int + 32) as char else c
  }

  function Lowered(s: string): string {
    if s == [] then [] else [ToLower(s[0])] + Lowered(s[1..])
  }

  lemma {:induction false} LoweredNormalizes(s: string)
    ensures Normalize(Lowered(s)) == Normalize(s)
  {
    if s != [] {
      LoweredNormalizes(s[1..]);
      assert Lowered(s)[1..] == Lowered(s[1..]);
    }
  }

  /** Capital or small letters make no difference, and characters that are neither letters nor
      spacing are kept as they are, capitals too. */
  lemma CaseMakesNoDifference(s: string)
    ensures Verdict(Lowered(s)) == Verdict(s)
    ensures Normal(s) ==> Normalize(Lowered(s)) == s
  {
    LoweredNormalizes(s);
    if Normal(s) {
      NormalizeKeeps(s);
    }
  }

  /** Spaces, hyphens, tabs and line breaks make no difference, wherever they stand. */
  lemma SpacingMakesNoDifference(a: string, c: char, b: string)
    requires c in {' ', '-', '\t', '\n', '\r', '\U{00A0}'}
    ensures Verdict(a + [c] + b) == Verdict(a + b)
  {
    NormalizeConcat(a, [c] + b);
    NormalizeConcat(a, b);
    assert ([c] + b)[1..] == b;
    assert a + [c] + b == a + ([c] + b);
  }

  /** Every refusal names its cause, the first that applies in this order. */
  lemma RefusalsNameTheirCause(raw: string)
    ensures var s := Normalize(raw);
            match Verdict(raw)
            case Accepted(normalized, country, last4) =>
              normalized == s && |s| >= 5 && country == s[..2] && last4 == s[|s| - 4..]
            case Rejected(Empty) => s == []
            case Rejected(BadChars) => s != [] && !AllAlnum(s)
            case Rejected(TooShort) => 0 < |s| < 5 && AllAlnum(s)
            case Rejected(NotSepa) => |s| >= 5 && AllAlnum(s) && s[..2] !in SEPA_LENGTH
            case Rejected(BadLength) => |s| >= 5 && AllAlnum(s) && s[..2] in SEPA_LENGTH && |s| != SEPA_LENGTH[s[..2]]
            case Rejected(BadChecksum) =>
              && |s| >= 5 && AllAlnum(s) && s[..2] in SEPA_LENGTH && |s| == SEPA_LENGTH[s[..2]]
              && (!IsDigit(s[2]) || !IsDigit(s[3]) || Number(Rearranged(s)) % 97 != 1)
  {
    hide Number, Normalize;
  }

  // ----- the arithmetic of the number ----------------------------------------------------

  lemma {:induction false} NumberIsDecimal(s: string)
    requires AllAlnum(s)
    ensures Number(s) == Decimal(Expand(s))
  {
    if s != [] {
      NumberIsDecimal(s[..|s| - 1]);
      DecimalAppend(Expand(s[..|s| - 1]), s[|s| - 1]);
    }
  }

  lemma {:induction false} NumberConcat(a: string, b: string)
    ensures Number(a + b) == Number(a) * Shift(b) + Number(b)
    decreases |b|
  {
    if b == [] {
      assert a + b == a;
    } else {
      var b', c := b[..|b| - 1], b[|b| - 1];
      assert (a + b)[..|a + b| - 1] == a + b' && (a + b)[|a + b| - 1] == c;
      NumberConcat(a, b');
      Reassociate(Number(a), Shift(b'), Number(b'), Base(c));
    }
  }

  lemma Reassociate(x: int, y: int, z: int, w: int)
    ensures (x * y + z) * w == x * (y * w) + z * w
  {
  }

  /** Shifting is invertible modulo 97, so a difference that vanishes after shifting vanished before. */
  lemma {:induction false} ShiftInvertible(x: int, s: string)
    requires x * Shift(s) % 97 == 0
    ensures x % 97 == 0
    decreases |s|
  {
    if s != [] {
      var y := x * Shift(s[..|s| - 1]);
      assert x * Shift(s) == y * Base(s[|s| - 1]) by {
        Reassociate(x, Shift(s[..|s| - 1]), 0, Base(s[|s| - 1]));
      }
      PlaceInvertible(y);
      ShiftInvertible(x, s[..|s| - 1]);
    }
  }

  /** 10 and 100 have the inverses 68 and 65. */
  lemma PlaceInvertible(y: int)
    ensures y * 10 % 97 == 0 ==> y % 97 == 0
    ensures y * 100 % 97 == 0 ==> y % 97 == 0
  {
    if y * 10 % 97 == 0 {
      assert y == 97 * (68 * (y * 10 / 97) - 7 * y);
    }
    if y * 100 % 97 == 0 {
      assert y == 97 * (65 * (y * 100 / 97) - 67 * y);
    }
  }

  lemma BlockDifference(p: string, x: string, y: string, q: string)
    requires Shift(x) == Shift(y)
    ensures Number(p + x + q) - Number(p + y + q) == (Number(x) - Number(y)) * Shift(q)
  {
    hide Number, Shift;
    NumberConcat(p + x, q);
    NumberConcat(p + y, q);
    NumberConcat(p, x);
    NumberConcat(p, y);
    assert Number(p + x) - Number(p + y) == Number(x) - Number(y);
    Factor(Number(p + x), Number(p + y), Shift(q));
  }

  lemma Factor(a: int, b: int, k: int)
    ensures a * k - b * k == (a - b) * k
  {
  }

  /** Replacing a block by one that shifts as far changes the remainder unless the two blocks'
      own numbers agree modulo 97. */
  lemma BlockReplaced(p: string, x: string, y: string, q: string)
    requires Shift(x) == Shift(y)
    ensures Number(p + x + q) % 97 == Number(p + y + q) % 97 <==> (Number(x) - Number(y)) % 97 == 0
  {
    BlockDifference(p, x, y, q);
    ShiftedDifference(Number(p + x + q), Number(p + y + q), Number(x) - Number(y), q);
  }

  lemma ShiftedDifference(a: int, b: int, d: int, q: string)
    requires a - b == d * Shift(q)
    ensures a % 97 == b % 97 <==> d % 97 == 0
  {
    SameRemainder(a, b);
    if d * Shift(q) % 97 == 0 {
      ShiftInvertible(d, q);
    }
    if d % 97 == 0 {
      MultipleStays(d, Shift(q));
    }
  }

  lemma SameRemainder(a: int, b: int)
    ensures a % 97 == b % 97 <==> (a - b) % 97 == 0
  {
  }

  lemma MultipleStays(d: int, k: int)
    requires d % 97 == 0
    ensures d * k % 97 == 0
  {
    var e := d / 97;
    assert d * k == 97 * (e * k);
  }

  // ----- what the checksum detects ---------------------------------------------------------

  /** An accepted number in its normal form. */
  ghost predicate Genuine(s: string) {
    Normalize(s) == s && Verdict(s).Accepted?
  }

  lemma AlnumIsNormal(s: string)
    requires AllAlnum(s)
    ensures Normalize(s) == s
  {
    NormalizeKeeps(s);
  }

  /** Every input that is accepted is accepted for a genuine number. */
  lemma AcceptedIsGenuine(raw: string)
    requires Verdict(raw).Accepted?
    ensures Verdict(raw).normalized == Normalize(raw) && Genuine(Normalize(raw))
    ensures Verdict(Normalize(raw)) == Verdict(raw)
  {
    AlnumIsNormal(Normalize(raw));
  }

  /** Everything but the checksum: a listed country, its length, and digits where digits belong. */
  predicate Shaped(s: string) {
    && AllAlnum(s) && |s| >= 5
    && s[..2] in SEPA_LENGTH && |s| == SEPA_LENGTH[s[..2]]
    && IsDigit(s[2]) && IsDigit(s[3])
  }

  /** A number is accepted exactly when its normal form has the right shape and the integer its
      rearranged characters write leaves 1 modulo 97. */
  lemma AcceptedExactly(raw: string)
    ensures var s := Normalize(raw);
            Verdict(raw).Accepted? <==> Shaped(s) && Number(Rearranged(s)) % 97 == 1
    ensures Shaped(Normalize(raw)) ==> Number(Rearranged(Normalize(raw))) == Decimal(Expand(Rearranged(Normalize(raw))))
  {
    if Shaped(Normalize(raw)) {
      NumberIsDecimal(Rearranged(Normalize(raw)));
    }
  }

  lemma SepaEntry(country: string)
    requires country in SEPA_LENGTH
    ensures |country| == 2 && IsUpper(country[0]) && IsUpper(country[1])
    ensures 15 <= SEPA_LENGTH[country] <= 31
  {
  }

  /** Where a character of the number stands once the first four have moved to the end. */
  function Moved(s: string, i: nat): nat
    requires 4 <= |s| && i < |s|
  {
    if i >= 4 then i - 4 else |s| - 4 + i
  }

  lemma NumberOne(c: char)
    requires IsAlnum(c)
    ensures Number([c]) == Value(c) && Shift([c]) == Base(c)
  {
    assert [c][..0] == [];
  }

  lemma NumberTwo(a: char, b: char)
    requires IsAlnum(a) && IsAlnum(b)
    ensures Number([a, b]) == Value(a) * Base(b) + Value(b) && Shift([a, b]) == Base(a) * Base(b)
  {
    assert [a, b][..1] == [a];
    NumberOne(a);
  }

  predicate SameClass(a: char, b: char) {
    (IsUpper(a) && IsUpper(b)) || (IsDigit(a) && IsDigit(b))
  }

  lemma AcceptedBasics(s: string)
    requires AllAlnum(s) && Verdict(s).Accepted?
    ensures |s| >= 5 && Number(Rearranged(s)) % 97 == 1
  {
    AlnumIsNormal(s);
    AcceptedExactly(s);
  }

  lemma GenuineIsAlnum(s: string)
    requires Genuine(s)
    ensures AllAlnum(s)
  {
    AcceptedExactly(s);
  }

  lemma DifferentValues(a: char, b: char)
    requires SameClass(a, b) && a != b
    ensures (Value(a) - Value(b)) % 97 != 0
  {
  }

  lemma SubstitutionRemainder(s: string, i: nat, c: char)
    requires AllAlnum(s) && 4 <= |s| && i < |s| && c != s[i] && SameClass(c, s[i])
    ensures Number(Rearranged(s[i := c])) % 97 != Number(Rearranged(s)) % 97
  {
    hide Number, Shift;
    var r, j := Rearranged(s), Moved(s, i);
    assert r == r[..j] + [s[i]] + r[j + 1..];
    assert Rearranged(s[i := c]) == r[..j] + [c] + r[j + 1..];
    NumberOne(s[i]);
    NumberOne(c);
    DifferentValues(c, s[i]);
    BlockReplaced(r[..j], [c], [s[i]], r[j + 1..]);
  }

  /** Misreading one digit as another, or one letter as another, is always caught. */
  lemma SubstitutionDetected(s: string, i: nat, c: char)
    requires Genuine(s) && i < |s| && c != s[i] && SameClass(c, s[i])
    ensures Verdict(s[i := c]).Rejected?
  {
    hide Verdict, Number, Normalize;
    GenuineIsAlnum(s);
    AcceptedBasics(s);
    SubstitutionRemainder(s, i, c);
    if Verdict(s[i := c]).Accepted? {
      AcceptedBasics(s[i := c]);
    }
  }

  function Swap(s: string, i: nat): string
    requires i + 1 < |s|
  {
    s[i := s[i + 1]][i + 1 := s[i]]
  }

  /** A digit beside the letter of eleven times its value (1 and B, 2 and M, 3 and X) writes the
      same integer either way round. */
  predicate ReadsAlike(a: char, b: char) {
    || (IsDigit(a) && IsUpper(b) && Value(b) == 11 * Value(a))
    || (IsUpper(a) && IsDigit(b) && Value(a) == 11 * Value(b))
  }

  lemma SwapArithmetic(a: char, b: char)
    requires IsAlnum(a) && IsAlnum(b) && a != b
    ensures Shift([a, b]) == Shift([b, a])
    ensures (Number([a, b]) - Number([b, a])) % 97 == 0 <==> ReadsAlike(a, b)
  {
    hide Number, Shift;
    NumberTwo(a, b);
    NumberTwo(b, a);
    if IsDigit(a) && IsUpper(b) {
      MixedPair(Value(a), Value(b));
    } else if IsUpper(a) && IsDigit(b) {
      MixedPair(Value(b), Value(a));
    } else {
      DifferentValues(a, b);
    }
  }

  lemma MixedPair(x: int, y: int)
    requires 0 <= x <= 9 && 10 <= y <= 35
    ensures (x * 100 + y - (y * 10 + x)) % 97 == 0 <==> y == 11 * x
    ensures (y * 10 + x - (x * 100 + y)) % 97 == 0 <==> y == 11 * x
  {
    NineTimes(11 * x - y);
    NineTimes(y - 11 * x);
    assert x * 100 + y - (y * 10 + x) == 9 * (11 * x - y);
    assert y * 10 + x - (x * 100 + y) == 9 * (y - 11 * x);
  }

  lemma NineTimes(z: int)
    requires -97 < z < 97
    ensures 9 * z % 97 == 0 <==> z == 0
  {
    if 9 * z % 97 == 0 {
      InverseCancels(9, 54, z);
    }
  }

  /** Swapping two neighbours changes the remainder exactly when they do not read alike. */
  lemma SwapRemainder(s: string, i: nat)
    requires 4 <= |s| && AllAlnum(s) && i + 1 < |s| && i != 3 && s[i] != s[i + 1]
    ensures Number(Rearranged(Swap(s, i))) % 97 == Number(Rearranged(s)) % 97 <==> ReadsAlike(s[i], s[i + 1])
  {
    var r, j := Rearranged(s), Moved(s, i);
    assert r == r[..j] + [s[i], s[i + 1]] + r[j + 2..];
    assert Rearranged(Swap(s, i)) == r[..j] + [s[i + 1], s[i]] + r[j + 2..];
    SwapArithmetic(s[i], s[i + 1]);
    BlockReplaced(r[..j], [s[i], s[i + 1]], [s[i + 1], s[i]], r[j + 2..]);
  }

  /** The decimal places a string of characters takes up. */
  function Width(s: string): nat {
    if s == [] then 0 else Width(s[..|s| - 1]) + if IsUpper(s[|s| - 1]) then 2 else 1
  }

  /** The remainder of a power of ten. */
  function Residue(k: nat): nat {
    if k == 0 then 1 else Residue(k - 1) * 10 % 97
  }

  lemma {:induction false} ShiftIsPower(s: string)
    ensures Shift(s) % 97 == Residue(Width(s))
    ensures |s| <= Width(s) <= 2 * |s|
  {
    if s != [] {
      ShiftIsPower(s[..|s| - 1]);
      NextPlace(Shift(s[..|s| - 1]), Width(s[..|s| - 1]));
    }
  }

  lemma NextPlace(x: nat, w: nat)
    requires x % 97 == Residue(w)
    ensures x * 10 % 97 == Residue(w + 1) && x * 100 % 97 == Residue(w + 2)
  {
    TimesTen(x, 0);
    TimesTen(x * 10, 0);
    assert Residue(w + 2) == Residue(w + 1) * 10 % 97;
  }

  /** The numbers of a string and of the one with its two ends exchanged. */
  lemma EndsExchanged(a: char, mid: string, b: char)
    requires IsDigit(a) && IsDigit(b)
    ensures Number([a] + mid + [b]) - Number([b] + mid + [a]) == (Value(a) - Value(b)) * (Shift(mid) * 10 - 1)
  {
    hide Number, Shift;
    NumberOne(a);
    NumberOne(b);
    NumberConcat([a] + mid, [b]);
    NumberConcat([b] + mid, [a]);
    NumberConcat([a], mid);
    NumberConcat([b], mid);
    EndsArithmetic(Value(a), Value(b), Shift(mid), Number(mid));
  }

  lemma EndsArithmetic(a: int, b: int, shift: int, mid: int)
    ensures (a * shift + mid) * 10 + b - ((b * shift + mid) * 10 + a) == (a - b) * (shift * 10 - 1)
  {
  }

  lemma InverseCancels(d: int, inverse: int, x: int)
    requires d * inverse % 97 == 1 && d * x % 97 == 0
    ensures x % 97 == 0
  {
    var q, m := d * inverse / 97, d * x / 97;
    assert x == (d * inverse - 97 * q) * x;
    assert inverse * (d * x) == d * inverse * x;
    assert x == 97 * (inverse * m - q * x);
  }

  /** A digit other than zero has an inverse modulo 97, so multiplying by it hides nothing. */
  lemma DigitInvertible(d: int, x: int)
    requires 1 <= d <= 9 && d * x % 97 == 0
    ensures x % 97 == 0
  {
    var inverses := [1, 49, 65, 73, 39, 81, 14, 85, 54];
    assert d * inverses[d - 1] % 97 == 1;
    InverseCancels(d, inverses[d - 1], x);
  }

  lemma DifferenceInvertible(a: nat, b: nat, x: int)
    requires a <= 9 && b <= 9 && a != b && (a - b) * x % 97 == 0
    ensures x % 97 == 0
  {
    if a > b {
      DigitInvertible(a - b, x);
    } else {
      assert (b - a) * x == -((a - b) * x);
      DigitInvertible(b - a, x);
    }
  }

  lemma ModTimes(x: nat, y: nat)
    ensures x * (y % 97) % 97 == x * y % 97
  {
    MultipleStays(97 * (y / 97), x);
    assert x * y == x * (y % 97) + 97 * (y / 97) * x;
    SameRemainder(x * y, x * (y % 97));
  }

  lemma {:induction false} ResidueSum(k: nat, j: nat)
    ensures Residue(k + j) == Residue(k) * Residue(j) % 97
    decreases j
  {
    if j == 0 {
      ResidueSmall(k);
    } else {
      ResidueSum(k, j - 1);
      SumStep(Residue(k), Residue(j - 1));
    }
  }

  lemma SumStep(x: nat, y: nat)
    ensures x * y % 97 * 10 % 97 == x * (y * 10 % 97) % 97
  {
    TimesTen(x * y, 0);
    ModTimes(x, y * 10);
    assert x * (y * 10) == x * y * 10;
  }

  lemma ResidueSmall(k: nat)
    ensures Residue(k) < 97 && Residue(k) % 97 == Residue(k)
    ensures Residue(0) == 1 && Residue(k + 1) == Residue(k) * 10 % 97
  {
  }

  lemma FirstPowers(k: nat)
    requires 1 <= k <= 10
    ensures Residue(k) in {10, 3, 30, 9, 90, 27, 76, 81, 34, 49} && Residue(10) == 49
  {
    hide Residue;
    ResidueSmall(0);
    NextPower(0, 1, 10);
    NextPower(1, 10, 3);
    NextPower(2, 3, 30);
    NextPower(3, 30, 9);
    NextPower(4, 9, 90);
    NextPower(5, 90, 27);
    NextPower(6, 27, 76);
    NextPower(7, 76, 81);
    NextPower(8, 81, 34);
    NextPower(9, 34, 49);
  }

  lemma NextPower(k: nat, r: nat, next: nat)
    requires Residue(k) == r && r * 10 % 97 == next
    ensures Residue(k + 1) == next
  {
  }

  lemma TenthPowers(a: nat)
    requires a <= 5
    ensures Residue(10 * a) in {1, 49, 73, 85, 91, 94}
  {
    hide Residue;
    ResidueSmall(0);
    FirstPowers(10);
    ResidueSum(10, 10);
    ResidueSum(20, 10);
    ResidueSum(30, 10);
    ResidueSum(40, 10);
  }

  predicate NeverOne(r: nat) {
    && r * 10 % 97 != 1 && r * 3 % 97 != 1 && r * 30 % 97 != 1 && r * 9 % 97 != 1 && r * 90 % 97 != 1
    && r * 27 % 97 != 1 && r * 76 % 97 != 1 && r * 81 % 97 != 1 && r * 34 % 97 != 1 && r * 49 % 97 != 1
  }

  lemma NoneOfSixty()
    ensures NeverOne(1) && NeverOne(49) && NeverOne(73) && NeverOne(85) && NeverOne(91) && NeverOne(94)
  {
  }

  /** None of the first sixty powers of ten leaves one modulo 97. */
  lemma ShortPowers(k: nat)
    requires 0 < k <= 60
    ensures Residue(k) != 1
  {
    hide Residue;
    var a, b := (k - 1) / 10, (k - 1) % 10 + 1;
    FirstPowers(b);
    TenthPowers(a);
    ResidueSum(10 * a, b);
    NoneOfSixty();
  }

  lemma PlacesApart(mid: string)
    requires |mid| < 30
    ensures (Shift(mid) * 10 - 1) % 97 != 0
  {
    hide Shift, Residue, Width;
    ShiftIsPower(mid);
    NextPlace(Shift(mid), Width(mid));
    ShortPowers(Width(mid) + 1);
    SameRemainder(Shift(mid) * 10, 1);
  }

  /** Exchanging a number's two different end digits changes its remainder, because no power of
      ten with fewer than 60 places is one modulo 97. */
  lemma EndsRemainder(a: char, mid: string, b: char)
    requires IsDigit(a) && IsDigit(b) && a != b && |mid| < 30
    ensures Number([a] + mid + [b]) % 97 != Number([b] + mid + [a]) % 97
  {
    hide Number, Shift;
    EndsExchanged(a, mid, b);
    PlacesApart(mid);
    SameRemainder(Number([a] + mid + [b]), Number([b] + mid + [a]));
    if (Value(a) - Value(b)) * (Shift(mid) * 10 - 1) % 97 == 0 {
      DifferenceInvertible(Value(a), Value(b), Shift(mid) * 10 - 1);
    }
  }

  /** The fourth and fifth characters are the last and the first of the checked number. */
  lemma FourthAndFifth(s: string)
    requires AllAlnum(s) && Shaped(s) && IsDigit(s[4]) && s[3] != s[4]
    ensures Number(Rearranged(Swap(s, 3))) % 97 != Number(Rearranged(s)) % 97
  {
    hide Number;
    SepaEntry(s[..2]);
    var mid := s[5..] + s[..3];
    assert Rearranged(s) == [s[4]] + mid + [s[3]];
    assert Rearranged(Swap(s, 3)) == [s[3]] + mid + [s[4]];
    EndsRemainder(s[4], mid, s[3]);
  }

  /** Swapping two different neighbours is always caught up to the fifth character, and after
      that is caught exactly when the two do not read alike: always when both are digits or both
      are letters. */
  lemma SwapDetected(s: string, i: nat)
    requires Genuine(s) && i + 1 < |s| && s[i] != s[i + 1]
    ensures Verdict(Swap(s, i)).Accepted? <==> i >= 4 && ReadsAlike(s[i], s[i + 1])
    ensures SameClass(s[i], s[i + 1]) ==> Verdict(Swap(s, i)).Rejected?
  {
    hide Verdict, Number, Normalize;
    var t := Swap(s, i);
    AcceptedExactly(s);
    AcceptedExactly(t);
    AlnumIsNormal(t);
    SepaEntry(s[..2]);
    if i == 3 {
      if IsDigit(s[4]) {
        FourthAndFifth(s);
      }
    } else {
      SwapRemainder(s, i);
    }
    if i >= 4 {
      assert t[..2] == s[..2];
    } else if i == 1 {
      assert !IsUpper(t[..2][1]);
      if t[..2] in SEPA_LENGTH {
        SepaEntry(t[..2]);
      }
    } else if i != 3 {
      assert !ReadsAlike(s[i], s[i + 1]) by {
        assert s[..2][0] == s[0] && s[..2][1] == s[1];
      }
    }
  }

  /** Such a number: with 1B or B1 after its check digits, it is accepted. */
  lemma SwapUndetected()
    ensures Genuine("NO621B000000000") && Swap("NO621B000000000", 4) == "NO62B1000000000"
    ensures Genuine(Swap("NO621B000000000", 4))
  {
    var s := "NO621B000000000";
    hide Verdict, Normalize, Number;
    AlnumIsNormal(s);
    AcceptedExactly(s);
    assert s[..2] == "NO";
    assert Rearranged(s) == "1B000000000NO62";
    OneGenuineNumber();
    AlnumIsNormal(Swap(s, 4));
    SwapDetected(s, 4);
  }

  lemma NextTwo(s: string, a: char, b: char)
    requires IsAlnum(a) && IsAlnum(b)
    ensures Number(s + [a, b]) == Number(s) * (Base(a) * Base(b)) + Value(a) * Base(b) + Value(b)
  {
    NumberTwo(a, b);
    NumberConcat(s, [a, b]);
  }

  lemma OneGenuineNumber()
    ensures Number("1B000000000NO62") == 111_000_000_000_232_462
  {
    hide Number;
    NumberOne('1');
    NextTwo("1", 'B', '0');
    assert "1" + ['B', '0'] == "1B0";
    NextTwo("1B0", '0', '0');
    assert "1B0" + ['0', '0'] == "1B000";
    NextTwo("1B000", '0', '0');
    assert "1B000" + ['0', '0'] == "1B00000";
    NextTwo("1B00000", '0', '0');
    assert "1B00000" + ['0', '0'] == "1B0000000";
    NextTwo("1B0000000", '0', '0');
    assert "1B0000000" + ['0', '0'] == "1B000000000";
    NextTwo("1B000000000", 'N', 'O');
    assert "1B000000000" + ['N', 'O'] == "1B000000000NO";
    NextTwo("1B000000000NO", '6', '2');
    assert "1B000000000NO" + ['6', '2'] == "1B000000000NO62";
  }

  // ----- every account has check digits -------------------------------------------------------

  function TwoDigits(k: nat): (s: string)
    requires k < 100
    ensures |s| == 2 && IsDigit(s[0]) && IsDigit(s[1])
  {
    [(48 + k / 10) as char, (48 + k % 10) as char]
  }

  function Assembled(country: string, k: nat, bban: string): string
    requires k < 100
  {
    country + TwoDigits(k) + bban
  }

  predicate Account(country: string, bban: string) {
    country in SEPA_LENGTH && AllAlnum(bban) && |bban| + 4 == SEPA_LENGTH[country]
  }

  /** Two check digits fit an account exactly when they bring its number to remainder one. */
  lemma CheckDigitsFit(country: string, bban: string, k: nat)
    requires Account(country, bban) && k < 100
    ensures Verdict(Assembled(country, k, bban)).Accepted? <==> (Number(bban + country) * 100 + k) % 97 == 1
  {
    hide Verdict, Number, Normalize;
    var s := Assembled(country, k, bban);
    AssembledShape(country, k, bban);
    AlnumIsNormal(s);
    AcceptedExactly(s);
    TwoDigitsNumber(bban + country, k);
  }

  lemma AssembledShape(country: string, k: nat, bban: string)
    requires Account(country, bban) && k < 100
    ensures Shaped(Assembled(country, k, bban))
    ensures Rearranged(Assembled(country, k, bban)) == (bban + country) + TwoDigits(k)
  {
    SepaEntry(country);
    var s := Assembled(country, k, bban);
    assert forall j | 0 <= j < |s| :: s[j] == if j < 2 then country[j] else if j < 4 then TwoDigits(k)[j - 2] else bban[j - 4];
    assert s[..2] == country && s[4..] == bban;
  }

  lemma TwoDigitsNumber(s: string, k: nat)
    requires k < 100
    ensures Number(s + TwoDigits(k)) == Number(s) * 100 + k
  {
    hide Number, Shift;
    NumberConcat(s, TwoDigits(k));
    NumberTwo(TwoDigits(k)[0], TwoDigits(k)[1]);
    assert TwoDigits(k) == [TwoDigits(k)[0], TwoDigits(k)[1]];
  }

  /** For every listed country and every account number of its length there is exactly one pair of
      check digits from 02 to 98 that is accepted: 98 less the remainder of the number written
      with 00. */
  lemma CheckDigitsExist(country: string, bban: string)
    requires Account(country, bban)
    ensures 2 <= 98 - Number(bban + country + "00") % 97 <= 98
    ensures forall k | 2 <= k <= 98 ::
              Verdict(Assembled(country, k, bban)).Accepted? <==> k == 98 - Number(bban + country + "00") % 97
  {
    hide Verdict, Number;
    assert TwoDigits(0) == "00";
    TwoDigitsNumber(bban + country, 0);
    forall k | 2 <= k <= 98
      ensures Verdict(Assembled(country, k, bban)).Accepted? <==> k == 98 - Number(bban + country + "00") % 97
    {
      CheckDigitsFit(country, bban, k);
      OnlyOne(Number(bban + country) * 100, k);
    }
  }

  lemma OnlyOne(n: nat, k: nat)
    requires 2 <= k <= 98
    ensures (n + k) % 97 == 1 <==> k == 98 - n % 97
  {
  }
}
