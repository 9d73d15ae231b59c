/** The text form in which password hashes are stored, its parser, and the verification of a
    password against a stored text. The key derivation is a parameter. */
module Credential {
  import opened Options

  type Byte = b: int | 0 <= b < 256
  type CInt = i: int | -0x8000_0000 <= i < 0x8000_0000
  type Digest = d: seq<Byte> | |d| == HASH_BYTES witness seq(HASH_BYTES, _ => 0)

  /** PBKDF2-HMAC-SHA256 of password, salt and iterations (section 5.2 of RFC 8018); it may fail. */
  type Kdf = (string, seq<Byte>, int) -> Option<Digest>

  const ALGO_TAG := "pbkdf2-sha256"
  const PREFIX := "$pbkdf2-sha256$"
  const ITERATIONS := 100000
  const MAX_ITERATIONS := 10_000_000
  const SALT_BYTES := 16
  const HASH_BYTES := 32
  const MAX_PASSWORD := 4096

  datatype Parsed = Parsed(iterations: int, salt: seq<Byte>, hash: seq<Byte>)

  predicate InBounds(p: Parsed) {
    1 <= p.iterations <= MAX_ITERATIONS && 8 <= |p.salt| <= 64 && |p.hash| == HASH_BYTES
  }

  // --------------------------------------------------------------------- hexadecimal

  const HEX_DIGITS := "0123456789abcdef"

  function HexDigit(c: char): (d: int)
    ensures -1 <= d < 16
  {
    if '0' <= c <= '9' then c as int - '0' as int
    else if 'a' <= c <= 'f' then c as int - 'a' as int + 10
    else if 'A' <= c <= 'F' then c as int - 'A' as int + 10
    else -1
  }

  /** `text` spells `bytes`, two digits of either case each. */
  predicate Spells(text: string, bytes: seq<Byte>) {
    |text| == 2 * |bytes| && |bytes| > 0
    && forall i :: 0 <= i < |bytes| ==> SpellsByte(text[2 * i], text[2 * i + 1], bytes[i])
  }

  predicate SpellsByte(hi: char, lo: char, b: Byte) {
    HexDigit(hi) >= 0 && HexDigit(lo) >= 0 && HexDigit(hi) * 16 + HexDigit(lo) == b
  }

  predicate Lower(text: string) { forall i :: 0 <= i < |text| ==> text[i] in HEX_DIGITS }

  function HexPair(b: Byte): (text: string)
    ensures |text| == 2 && Lower(text) && SpellsByte(text[0], text[1], b)
  {
    HexChars(b / 16);
    HexChars(b % 16);
    [HEX_DIGITS[b / 16], HEX_DIGITS[b % 16]]
  }

  lemma HexChars(d: int)
    requires 0 <= d < 16
    ensures HexDigit(HEX_DIGITS[d]) == d
  {
    assert HEX_DIGITS == ['0', '1', '2', '3', '4', '5', '6', '7', '8', '9', 'a', 'b', 'c', 'd', 'e', 'f'];
  }

  function Hex(data: seq<Byte>): (text: string)
    ensures |text| == 2 * |data| && Lower(text)
  {
    if data == [] then "" else Hex(data[..|data| - 1]) + HexPair(data[|data| - 1])
  }

  lemma {:induction false} HexSpellsAt(data: seq<Byte>, i: nat)
    requires i < |data|
    ensures SpellsByte(Hex(data)[2 * i], Hex(data)[2 * i + 1], data[i])
  {
    var init, n := data[..|data| - 1], |data| - 1;
    var text, last := Hex(init), HexPair(data[n]);
    assert Hex(data) == text + last;
    if i < n {
      HexSpellsAt(init, i);
      assert Hex(data)[2 * i] == text[2 * i] && Hex(data)[2 * i + 1] == text[2 * i + 1] && init[i] == data[i];
    } else {
      assert Hex(data)[2 * i] == last[0] && Hex(data)[2 * i + 1] == last[1];
    }
  }

  lemma HexSpells(data: seq<Byte>)
    requires data != []
    ensures Spells(Hex(data), data)
  {
    forall i | 0 <= i < |data| ensures SpellsByte(Hex(data)[2 * i], Hex(data)[2 * i + 1], data[i]) {
      HexSpellsAt(data, i);
    }
  }

  method ToHex(data: seq<Byte>) returns (out: string)
    ensures out == Hex(data)
  {
    out := "";
    var i := 0;
    while i < |data|
      invariant 0 <= i <= |data| && out == Hex(data[..i])
    {
      assert data[..i + 1][..i] == data[..i];
      out := out + HexPair(data[i]);
      i := i + 1;
    }
    assert data[..i] == data;
  }

  lemma NoSpelling(text: string, i: nat, bytes: seq<Byte>)
    requires 2 * i + 1 < |text| && (HexDigit(text[2 * i]) < 0 || HexDigit(text[2 * i + 1]) < 0)
    ensures !Spells(text, bytes)
  {
    if |text| == 2 * |bytes| {
      assert !SpellsByte(text[2 * i], text[2 * i + 1], bytes[i]);
    }
  }

  method FromHex(text: string) returns (r: Option<seq<Byte>>)
    ensures r.Some? ==> Spells(text, r.value)
    ensures r.None? ==> forall bytes :: !Spells(text, bytes)
  {
    if text == "" || |text| % 2 != 0 {
      return None;
    }
    var out: seq<Byte>, i := [], 0;
    while i < |text|
      invariant 0 <= i <= |text| && i == 2 * |out|
      invariant forall k :: 0 <= k < |out| ==> SpellsByte(text[2 * k], text[2 * k + 1], out[k])
    {
      var hi, lo := HexDigit(text[i]), HexDigit(text[i + 1]);
      if hi < 0 || lo < 0 {
        forall bytes ensures !Spells(text, bytes) { NoSpelling(text, |out|, bytes); }
        return None;
      }
      out := out + [hi * 16 + lo];
      i := i + 2;
    }
    return Some(out);
  }

  /** A text spells one byte string only. */
  lemma SpellingIsUnique(text: string, bytes: seq<Byte>, bytes': seq<Byte>)
    requires Spells(text, bytes) && Spells(text, bytes')
    ensures bytes == bytes'
  {
    forall i | 0 <= i < |bytes| ensures bytes[i] == bytes'[i] {
      assert SpellsByte(text[2 * i], text[2 * i + 1], bytes[i]);
      assert SpellsByte(text[2 * i], text[2 * i + 1], bytes'[i]);
    }
  }

  /** In lower case a byte string has one text. */
  lemma LowerSpellingIsUnique(bytes: seq<Byte>, text: string, text': string)
    requires Spells(text, bytes) && Spells(text', bytes) && Lower(text) && Lower(text')
    ensures text == text'
  {
    forall i | 0 <= i < |bytes| ensures text[2 * i] == text'[2 * i] && text[2 * i + 1] == text'[2 * i + 1] {
      SameDigits(text[2 * i], text[2 * i + 1], text'[2 * i], text'[2 * i + 1], bytes[i]);
    }
    forall k | 0 <= k < |text| ensures text[k] == text'[k] {
      assert k == 2 * (k / 2) || k == 2 * (k / 2) + 1;
    }
  }

  lemma SameDigits(hi: char, lo: char, hi': char, lo': char, b: Byte)
    requires SpellsByte(hi, lo, b) && SpellsByte(hi', lo', b)
    requires hi in HEX_DIGITS && lo in HEX_DIGITS && hi' in HEX_DIGITS && lo' in HEX_DIGITS
    ensures hi == hi' && lo == lo'
  {
    LowerDigits(hi, hi');
    LowerDigits(lo, lo');
  }

  lemma LowerDigits(c: char, d: char)
    requires c in HEX_DIGITS && d in HEX_DIGITS && HexDigit(c) == HexDigit(d)
    ensures c == d
  {
    assert HEX_DIGITS == ['0', '1', '2', '3', '4', '5', '6', '7', '8', '9', 'a', 'b', 'c', 'd', 'e', 'f'];
  }

  // ------------------------------------------------------------------------- decimal

  predicate Numeral(text: string) { forall i :: 0 <= i < |text| ==> '0' <= text[i] <= '9' }

  function Value(text: string): (n: nat)
    requires Numeral(text)
  {
    if text == "" then 0
    else Value(text[..|text| - 1]) * 10 + (text[|text| - 1] as int - '0' as int)
  }

  /** std::to_string of a number that is not negative. */
  function Decimal(n: nat): (text: string)
    ensures Numeral(text) && text != ""
  {
    var last := ['0' + (n % 10) as char];
    if n < 10 then last else Decimal(n / 10) + last
  }

  lemma {:induction false} DecimalReadsBack(n: nat)
    ensures Value(Decimal(n)) == n
    ensures |Decimal(n)| > 1 ==> Decimal(n)[0] != '0'
  {
    var text := Decimal(n);
    assert text[|text| - 1] == '0' + (n % 10) as char;
    if n < 10 {
      assert Value(text[..0]) == 0;
    } else {
      DecimalReadsBack(n / 10);
      assert text[..|text| - 1] == Decimal(n / 10);
      assert text[0] == Decimal(n / 10)[0];
      if n / 10 < 10 { assert Decimal(n / 10)[0] == '0' + ((n / 10) % 10) as char; }
    }
  }

  function PowerOfTen(k: nat): nat { if k == 0 then 1 else 10 * PowerOfTen(k - 1) }

  lemma {:induction false} ValueIsBounded(text: string)
    requires Numeral(text)
    ensures Value(text) < PowerOfTen(|text|)
  {
    if text != "" { ValueIsBounded(text[..|text| - 1]); }
  }

  function DigitValue(c: char): (d: nat)
    requires '0' <= c <= '9'
    ensures d < 10 && '0' + d as char == c
  {
    c as int - '0' as int
  }

  lemma ValueStep(init: string, last: char)
    requires Numeral(init) && '0' <= last <= '9'
    ensures Numeral(init + [last]) && Value(init + [last]) == Value(init) * 10 + DigitValue(last)
  {
    assert (init + [last])[..|init|] == init;
  }

  lemma DecimalStep(a: nat, d: nat)
    requires d < 10
    ensures Decimal(a * 10 + d) == (if a == 0 then "" else Decimal(a)) + ['0' + d as char]
  {
    assert (a * 10 + d) / 10 == a && (a * 10 + d) % 10 == d;
  }

  lemma OneDigit(c: char)
    requires '0' <= c <= '9'
    ensures Numeral([c]) && Value([c]) == DigitValue(c) && Decimal(DigitValue(c)) == [c]
  {
    ValueStep("", c);
    assert "" + [c] == [c];
    DecimalStep(0, DigitValue(c));
  }

  lemma OneMoreDigit(init: string, last: char, a: nat)
    requires Numeral(init) && '0' <= last <= '9'
    requires a >= 1 && Value(init) == a && Decimal(a) == init
    ensures Numeral(init + [last]) && Value(init + [last]) >= 1
    ensures Decimal(Value(init + [last])) == init + [last]
  {
    ValueStep(init, last);
    DecimalStep(a, DigitValue(last));
  }

  /** Without a leading zero a number has one numeral. */
  lemma {:induction false} NumeralIsDecimal(text: string)
    requires Numeral(text) && text != "" && (|text| > 1 ==> text[0] != '0')
    ensures Decimal(Value(text)) == text
    ensures text[0] != '0' ==> Value(text) >= 1
    decreases |text|
  {
    if |text| == 1 {
      assert text == [text[0]];
      OneDigit(text[0]);
    } else {
      var init, last := text[..|text| - 1], text[|text| - 1];
      assert init[0] == text[0];
      NumeralIsDecimal(init);
      OneMoreDigit(init, last, Value(init));
      assert text == init + [last];
    }
  }

  // ---------------------------------------------------------------------- the fields

  predicate Plain(text: string) { '$' !in text }

  function Joined(parts: seq<string>): string
    decreases |parts|
  {
    if parts == [] then "" else if |parts| == 1 then parts[0] else parts[0] + "$" + Joined(parts[1..])
  }

  /** The parts of a text between its '$' signs. */
  predicate SplitsInto(text: string, parts: seq<string>) {
    parts != [] && Joined(parts) == text && forall i :: 0 <= i < |parts| ==> Plain(parts[i])
  }

  lemma FirstPart(a: string, b: string, rest: string, rest': string)
    requires Plain(a) && Plain(b)
    ensures a + "$" + rest == b + "$" + rest' ==> a == b && rest == rest'
    ensures a + "$" + rest != b
  {
    var s, t := a + "$" + rest, b + "$" + rest';
    assert s[|a|] == '$' && t[|b|] == '$';
    assert |a| < |b| ==> t[|a|] == b[|a|];
    assert |b| < |a| ==> s[|b|] == a[|b|];
    if s == t {
      assert |a| == |b|;
      assert a == s[..|a|] && b == t[..|b|] && rest == s[|a| + 1..] && rest' == t[|b| + 1..];
    }
  }

  lemma {:induction false} SplitIsUnique(text: string, parts: seq<string>, parts': seq<string>)
    requires SplitsInto(text, parts) && SplitsInto(text, parts')
    ensures parts == parts'
    decreases |parts|
  {
    var a, b := parts[0], parts'[0];
    assert Plain(a) && Plain(b);
    if |parts| == 1 && |parts'| == 1 {
    } else if |parts| == 1 {
      FirstPart(b, a, Joined(parts'[1..]), "");
    } else if |parts'| == 1 {
      FirstPart(a, b, Joined(parts[1..]), "");
    } else {
      FirstPart(a, b, Joined(parts[1..]), Joined(parts'[1..]));
      SplitIsUnique(Joined(parts[1..]), parts[1..], parts'[1..]);
      assert parts == [a] + parts[1..] && parts' == [b] + parts'[1..];
    }
  }

  /** std::string::find: the first '$' at or after `start`, or the length if there is none. */
  method Find(text: string, start: nat) returns (pos: nat)
    requires start <= |text|
    ensures start <= pos <= |text| && Plain(text[start..pos])
    ensures pos < |text| ==> text[pos] == '$'
  {
    pos := start;
    while pos < |text| && text[pos] != '$'
      invariant start <= pos <= |text| && Plain(text[start..pos])
    {
      assert text[start..pos + 1] == text[start..pos] + [text[pos]];
      pos := pos + 1;
    }
  }

  lemma {:induction false} JoinedAppend(parts: seq<string>, last: string)
    requires parts != []
    ensures Joined(parts + [last]) == Joined(parts) + "$" + last
    decreases |parts|
  {
    if |parts| > 1 {
      JoinedAppend(parts[1..], last);
      assert (parts + [last])[1..] == parts[1..] + [last];
    } else {
      assert (parts + [last])[1..] == [last];
    }
  }

  function Prefixed(parts: seq<string>): string { if parts == [] then "" else Joined(parts) + "$" }

  method Split(stored: string) returns (parts: seq<string>)
    requires stored != ""
    ensures SplitsInto(stored[1..], parts)
  {
    var start := 1;
    parts := [];
    while true
      invariant 1 <= start <= |stored| && forall i :: 0 <= i < |parts| ==> Plain(parts[i])
      invariant stored[1..start] == Prefixed(parts)
      decreases |stored| - start
    {
      var pos := Find(stored, start);
      var part := stored[start..pos];
      if parts != [] { JoinedAppend(parts, part); }
      assert Joined(parts + [part]) == Prefixed(parts) + part == stored[1..pos];
      parts := parts + [part];
      if pos == |stored| {
        break;
      }
      assert stored[1..pos + 1] == stored[1..pos] + "$";
      start := pos + 1;
    }
  }

  // ----------------------------------------------------------------- the stored text

  predicate Written(stored: string, p: Parsed, it: string, salt: string, hash: string) {
    && stored == "$" + Joined([ALGO_TAG, it, salt, hash])
    && 1 <= |it| <= 9 && Numeral(it) && Value(it) == p.iterations
    && Spells(salt, p.salt) && Spells(hash, p.hash)
  }

  /** The stored text stands for these parameters: the grammar, and the limits. */
  ghost predicate Denotes(stored: string, p: Parsed) {
    InBounds(p) && exists it, salt, hash :: Written(stored, p, it, salt, hash)
  }

  predicate PartsMean(parts: seq<string>, p: Parsed) {
    && |parts| == 4 && parts[0] == ALGO_TAG && InBounds(p)
    && 1 <= |parts[1]| <= 9 && Numeral(parts[1]) && Value(parts[1]) == p.iterations
    && Spells(parts[2], p.salt) && Spells(parts[3], p.hash)
  }

  lemma SpelledIsPlain(text: string, bytes: seq<Byte>)
    requires Spells(text, bytes)
    ensures Plain(text)
  {
    forall k | 0 <= k < |text| ensures text[k] != '$' {
      assert k == 2 * (k / 2) || k == 2 * (k / 2) + 1;
      assert SpellsByte(text[2 * (k / 2)], text[2 * (k / 2) + 1], bytes[k / 2]);
    }
  }

  lemma JoinedFour(a: string, b: string, c: string, d: string)
    ensures Joined([a, b, c, d]) == a + "$" + b + "$" + c + "$" + d
  {
    assert [c, d][1..] == [d] && Joined([d]) == d;
    assert Joined([c, d]) == c + "$" + d;
    assert [b, c, d][1..] == [c, d];
    assert Joined([b, c, d]) == b + "$" + (c + "$" + d);
    assert [a, b, c, d][1..] == [b, c, d];
    assert a + "$" + (b + "$" + (c + "$" + d)) == a + "$" + b + "$" + c + "$" + d;
  }

  /** The text as hash() puts it together, prefix first. */
  lemma PrefixFirst(it: string, salt: string, hash: string)
    ensures "$" + Joined([ALGO_TAG, it, salt, hash]) == PREFIX + it + "$" + salt + "$" + hash
    ensures PREFIX <= "$" + Joined([ALGO_TAG, it, salt, hash])
  {
    JoinedFour(ALGO_TAG, it, salt, hash);
    assert PREFIX == "$" + ALGO_TAG + "$";
    var rest := it + "$" + salt + "$" + hash;
    assert "$" + (ALGO_TAG + "$" + it + "$" + salt + "$" + hash) == ("$" + ALGO_TAG + "$") + rest;
    assert PREFIX + it + "$" + salt + "$" + hash == PREFIX + rest;
  }

  lemma WrittenSplits(stored: string, p: Parsed, it: string, salt: string, hash: string)
    requires Written(stored, p, it, salt, hash)
    ensures SplitsInto(stored[1..], [ALGO_TAG, it, salt, hash]) && PREFIX <= stored
  {
    SpelledIsPlain(salt, p.salt);
    SpelledIsPlain(hash, p.hash);
    PrefixFirst(it, salt, hash);
    assert Plain(ALGO_TAG) by {
      assert ALGO_TAG == ['p', 'b', 'k', 'd', 'f', '2', '-', 's', 'h', 'a', '2', '5', '6'];
    }
    assert Plain(it);
  }

  lemma DenotesMeansParts(stored: string, parts: seq<string>, p: Parsed)
    requires stored != "" && SplitsInto(stored[1..], parts) && Denotes(stored, p)
    ensures PREFIX <= stored && PartsMean(parts, p)
  {
    var it, salt, hash :| Written(stored, p, it, salt, hash);
    WrittenSplits(stored, p, it, salt, hash);
    SplitIsUnique(stored[1..], parts, [ALGO_TAG, it, salt, hash]);
  }

  lemma PartsMeanDenotes(stored: string, parts: seq<string>, p: Parsed)
    requires PREFIX <= stored && SplitsInto(stored[1..], parts) && PartsMean(parts, p)
    ensures Denotes(stored, p)
  {
    assert parts == [ALGO_TAG, parts[1], parts[2], parts[3]];
    assert stored[0] == PREFIX[0] == '$' && stored == "$" + stored[1..];
    assert Written(stored, p, parts[1], parts[2], parts[3]);
  }

  lemma {:induction false} PowersUpToNine(k: nat)
    requires k <= 9
    ensures PowerOfTen(k) <= 1_000_000_000
    decreases 9 - k
  {
    if k == 9 {
      assert PowerOfTen(3) == 1_000;
      assert PowerOfTen(6) == 1_000_000;
    } else {
      PowersUpToNine(k + 1);
    }
  }

  /** The accumulation loop over at most nine digits stays within an int. */
  method ReadNumber(text: string) returns (r: Option<CInt>)
    requires |text| <= 9
    ensures r.Some? <==> Numeral(text)
    ensures r.Some? ==> r.value == Value(text)
  {
    var n: CInt, i := 0, 0;
    while i < |text|
      invariant 0 <= i <= |text| && Numeral(text[..i]) && n == Value(text[..i])
    {
      var c := text[i];
      if c < '0' || c > '9' {
        return None;
      }
      assert text[..i + 1][..i] == text[..i];
      ValueIsBounded(text[..i + 1]);
      PowersUpToNine(i + 1);
      n := n * 10 + (c as int - '0' as int);
      i := i + 1;
    }
    assert text[..i] == text;
    return Some(n);
  }

  /** Accepts exactly the texts that stand for parameters within the limits, and reads them. */
  method ParseCredential(stored: string) returns (r: Option<Parsed>)
    ensures r.Some? ==> Denotes(stored, r.value)
    ensures r.None? ==> forall p :: !Denotes(stored, p)
  {
    if !(PREFIX <= stored) {
      return None;
    }
    var parts := Split(stored);
    forall p ensures Denotes(stored, p) <==> PartsMean(parts, p) {
      if Denotes(stored, p) { DenotesMeansParts(stored, parts, p); }
      if PartsMean(parts, p) { PartsMeanDenotes(stored, parts, p); }
    }
    r := ReadParts(parts);
  }

  method ReadParts(parts: seq<string>) returns (r: Option<Parsed>)
    ensures r.Some? ==> PartsMean(parts, r.value)
    ensures r.None? ==> forall p :: !PartsMean(parts, p)
  {
    if |parts| != 4 || parts[0] != ALGO_TAG {
      return None;
    }
    if parts[1] == "" || |parts[1]| > 9 {
      return None;
    }
    var n := ReadNumber(parts[1]);
    if n.None? || n.value < 1 || n.value > MAX_ITERATIONS {
      return None;
    }
    var salt := FromHex(parts[2]);
    var hash := FromHex(parts[3]);
    if salt.None? || hash.None? {
      return None;
    }
    forall p | PartsMean(parts, p) ensures p.salt == salt.value && p.hash == hash.value {
      SpellingIsUnique(parts[2], p.salt, salt.value);
      SpellingIsUnique(parts[3], p.hash, hash.value);
    }
    if |salt.value| < 8 || |salt.value| > 64 || |hash.value| != HASH_BYTES {
      return None;
    }
    return Some(Parsed(n.value, salt.value, hash.value));
  }

  /** The text that hash() writes. */
  function Print(p: Parsed): string
    requires p.iterations >= 0
  {
    "$" + Joined([ALGO_TAG, Decimal(p.iterations), Hex(p.salt), Hex(p.hash)])
  }

  lemma ShortDecimal(n: nat)
    requires n <= MAX_ITERATIONS
    ensures |Decimal(n)| <= 8
  {
    var a := n / 10; var b := a / 10; var c := b / 10; var d := c / 10;
    var e := d / 10; var f := e / 10; var g := f / 10;
    assert g <= 1;
    assert |Decimal(g)| == 1;
    assert |Decimal(f)| <= 2 && |Decimal(e)| <= 3 && |Decimal(d)| <= 4;
    assert |Decimal(c)| <= 5 && |Decimal(b)| <= 6 && |Decimal(a)| <= 7;
  }

  lemma PrintIsWritten(p: Parsed)
    requires InBounds(p)
    ensures Written(Print(p), p, Decimal(p.iterations), Hex(p.salt), Hex(p.hash))
  {
    DecimalReadsBack(p.iterations);
    ShortDecimal(p.iterations);
    HexSpells(p.salt);
    HexSpells(p.hash);
  }

  /** Round trip: what is printed stands for what was printed, and for nothing else. */
  lemma PrintedReadsBack(p: Parsed, q: Parsed)
    requires InBounds(p)
    ensures Denotes(Print(p), q) <==> q == p
  {
    PrintIsWritten(p);
    if Denotes(Print(p), q) { OneMeaning(Print(p), p, q); }
  }

  lemma OneMeaning(stored: string, p: Parsed, q: Parsed)
    requires Denotes(stored, p) && Denotes(stored, q)
    ensures p == q
  {
    var it, salt, hash :| Written(stored, p, it, salt, hash);
    WrittenSplits(stored, p, it, salt, hash);
    DenotesMeansParts(stored, [ALGO_TAG, it, salt, hash], q);
    SpellingIsUnique(salt, p.salt, q.salt);
    SpellingIsUnique(hash, p.hash, q.hash);
  }

  /** Of the texts that stand for the same parameters, the printed one is the one without a
      leading zero and in lower case. */
  lemma PrintedIsCanonical(stored: string, p: Parsed, it: string, salt: string, hash: string)
    requires InBounds(p) && Written(stored, p, it, salt, hash)
    ensures stored == Print(p) <==> (|it| > 1 ==> it[0] != '0') && Lower(salt) && Lower(hash)
  {
    PrintIsWritten(p);
    DecimalReadsBack(p.iterations);
    if (|it| > 1 ==> it[0] != '0') && Lower(salt) && Lower(hash) {
      NumeralIsDecimal(it);
      LowerSpellingIsUnique(p.salt, salt, Hex(p.salt));
      LowerSpellingIsUnique(p.hash, hash, Hex(p.hash));
    }
    if stored == Print(p) {
      var fields := [Decimal(p.iterations), Hex(p.salt), Hex(p.hash)];
      WrittenSplits(stored, p, it, salt, hash);
      WrittenSplits(stored, p, fields[0], fields[1], fields[2]);
      SplitIsUnique(stored[1..], [ALGO_TAG, it, salt, hash], [ALGO_TAG, fields[0], fields[1], fields[2]]);
      assert [ALGO_TAG, it, salt, hash][1..] == fields;
      assert it == fields[0] && salt == fields[1] && hash == fields[2];
    }
  }

  // -------------------------------------------------------------------- verification

  function Derive(kdf: Kdf, password: string, salt: seq<Byte>, iterations: int): Option<Digest> {
    if |password| > MAX_PASSWORD || |salt| > 256 then None else kdf(password, salt, iterations)
  }

  predicate DerivesTo(kdf: Kdf, password: string, p: Parsed) {
    var digest := Derive(kdf, password, p.salt, p.iterations);
    digest.Some? && digest.value == p.hash
  }

  /** A fresh salt, or None when the random source fails. */
  method Hash(password: string, random: Option<seq<Byte>>, kdf: Kdf) returns (stored: Option<string>)
    requires random.Some? ==> |random.value| == SALT_BYTES
    ensures stored.Some? <==>
              random.Some? && |password| <= MAX_PASSWORD && kdf(password, random.value, ITERATIONS).Some?
    ensures stored.Some? ==>
      stored.value == Print(Parsed(ITERATIONS, random.value, kdf(password, random.value, ITERATIONS).value))
  {
    if random.None? {
      return None;
    }
    var digest := Derive(kdf, password, random.value, ITERATIONS);
    if digest.None? {
      return None;
    }
    var salt := ToHex(random.value);
    var hash := ToHex(digest.value);
    PrefixFirst(Decimal(ITERATIONS), salt, hash);
    return Some(PREFIX + Decimal(ITERATIONS) + "$" + salt + "$" + hash);
  }

  /** A password matches the hash a text stands for, or an old plain-text entry; a text that
      looks like a hash but stands for none matches nothing. */
  ghost predicate Matches(password: string, stored: string, kdf: Kdf) {
    || (exists p :: Denotes(stored, p) && DerivesTo(kdf, password, p))
    || (IsLegacy(stored) && password == stored)
  }

  predicate IsLegacy(stored: string) { stored != "" && !(PREFIX <= stored) }

  ghost predicate Outdated(stored: string) {
    forall p :: Denotes(stored, p) ==> p.iterations != ITERATIONS || |p.salt| != SALT_BYTES
  }

  method Verify(password: string, stored: string, kdf: Kdf) returns (ok: bool, needsRehash: bool)
    ensures ok <==> Matches(password, stored, kdf)
    ensures needsRehash <==> ok && Outdated(stored)
    ensures PREFIX <= stored && (forall p :: !Denotes(stored, p)) ==> !ok
  {
    var parsed := ParseCredential(stored);
    if parsed.Some? {
      var p := parsed.value;
      assert PREFIX <= stored;
      forall q | Denotes(stored, q) ensures q == p { OneMeaning(stored, p, q); }
      var digest := Derive(kdf, password, p.salt, p.iterations);
      if digest.None? || digest.value != p.hash {
        return false, false;
      }
      return true, p.iterations != ITERATIONS || |p.salt| != SALT_BYTES;
    }
    if PREFIX <= stored {
      return false, false;
    }
    if stored == "" || |stored| != |password| {
      return false, false;
    }
    if stored != password {
      return false, false;
    }
    return true, true;
  }

  /** Whatever hash() returned for a password verifies that password without a rehash, and
      any other password exactly when it derives the same digest; so the stored text itself,
      used as a password, is no way in. */
  lemma HashedVerifies(password: string, other: string, salt: seq<Byte>, digest: Digest, kdf: Kdf)
    requires |salt| == SALT_BYTES && |password| <= MAX_PASSWORD
    requires kdf(password, salt, ITERATIONS) == Some(digest)
    ensures var stored := Print(Parsed(ITERATIONS, salt, digest));
      && Matches(password, stored, kdf) && !Outdated(stored)
      && (Matches(other, stored, kdf) <==> |other| <= MAX_PASSWORD && kdf(other, salt, ITERATIONS) == Some(digest))
  {
    var p := Parsed(ITERATIONS, salt, digest);
    var stored := Print(p);
    PrintedReadsBack(p, p);
    forall q | Denotes(stored, q) ensures q == p { PrintedReadsBack(p, q); }
    PrefixFirst(Decimal(ITERATIONS), Hex(salt), Hex(digest));
    assert !IsLegacy(stored);
    assert DerivesTo(kdf, password, p);
  }

  /** Against a text that stands for a hash, a password matches exactly when the derivation,
      with the salt and the iterations of that text, gives its digest; the text is outdated
      exactly when those are not today's. */
  lemma MatchesByDerivation(password: string, stored: string, p: Parsed, kdf: Kdf)
    requires Denotes(stored, p)
    ensures Matches(password, stored, kdf) <==>
              |password| <= 4096 && kdf(password, p.salt, p.iterations).Some?
              && kdf(password, p.salt, p.iterations).value == p.hash
    ensures Outdated(stored) <==> p.iterations != 100000 || |p.salt| != 16
  {
    forall q | Denotes(stored, q) ensures q == p { OneMeaning(stored, p, q); }
    var it, salt, hash :| Written(stored, p, it, salt, hash);
    PrefixFirst(it, salt, hash);
    assert !IsLegacy(stored);
    assert |p.salt| <= 64;
  }

  /** In particular against every printed text, whatever its parameters: a credential made
      with other iterations still lets its owner in, and is then renewed. */
  lemma PrintedMatchesByDerivation(password: string, p: Parsed, kdf: Kdf)
    requires InBounds(p)
    ensures Matches(password, Print(p), kdf) <==>
              |password| <= 4096 && kdf(password, p.salt, p.iterations).Some?
              && kdf(password, p.salt, p.iterations).value == p.hash
    ensures Outdated(Print(p)) <==> p.iterations != 100000 || |p.salt| != 16
  {
    PrintedReadsBack(p, p);
    MatchesByDerivation(password, Print(p), p, kdf);
  }

  /** A text without the prefix of a hash is an old plain-text entry: it matches itself, unless
      it is empty, and then asks to be renewed. */
  lemma PlainTextMatchesItself(password: string, stored: string, kdf: Kdf)
    requires !(PREFIX <= stored)
    ensures Matches(password, stored, kdf) <==> stored != "" && password == stored
    ensures Outdated(stored)
  {
    forall p ensures !Denotes(stored, p) {
      if Denotes(stored, p) {
        var it, salt, hash :| Written(stored, p, it, salt, hash);
        PrefixFirst(it, salt, hash);
        assert false;
      }
    }
  }

  /** The limits, in numbers. */
  lemma LimitsByHand(p: Parsed)
    ensures InBounds(p) <==> 1 <= p.iterations <= 10_000_000 && 8 <= |p.salt| <= 64 && |p.hash| == 32
  {
  }

  /** The digits as everybody reads them. */
  lemma HexDigitsByHand(d: int, c: char)
    ensures 0 <= d < 16 ==> HexDigit("0123456789abcdef"[d]) == d && HexDigit("0123456789ABCDEF"[d]) == d
    ensures c !in "0123456789abcdef" && c !in "0123456789ABCDEF" ==> HexDigit(c) == -1
  {
    if 0 <= d < 16 { HexChars(d); }
    if '0' <= c <= '9' { assert "0123456789abcdef"[c as int - '0' as int] == c; }
    if 'a' <= c <= 'f' { assert "0123456789abcdef"[c as int - 'a' as int + 10] == c; }
    if 'A' <= c <= 'F' { assert "0123456789ABCDEF"[c as int - 'A' as int + 10] == c; }
  }

  /** The first digit of a byte is its high half. */
  lemma HexByHand()
    ensures HexPair(0x1f) == "1f" && HexPair(0xa0) == "a0"
  {
  }

  lemma DecimalByHand()
    ensures Decimal(100000) == "100000"
    ensures Decimal(1234) == "1234"
  {
    assert Decimal(1) == "1";
    assert Decimal(10) == "10";
    assert Decimal(100) == "100";
    assert Decimal(1000) == "1000";
    assert Decimal(10000) == "10000";
    assert Decimal(12) == "12";
    assert Decimal(123) == "123";
  }
}
