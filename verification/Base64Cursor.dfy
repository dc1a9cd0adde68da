/** Opaque cursors: base64url without padding (sections 3.2 and 5 of RFC 4648),
    padded again from the length alone when read back. */
module Base64Cursor {
  import opened Wrappers

  newtype byte = x: int | 0 <= x < 256

  // ---------------------------------------------------------------- the alphabet

  function Letter(x: nat): char
    requires x < 64
  {
    if x < 26 then 'A' + x as char else
    if x < 52 then 'a' + (x - 26) as char else
    if x < 62 then '0' + (x - 52) as char else
    if x == 62 then '-' else '_'
  }

  /** The decoder first maps the url-safe characters to the standard ones, so it accepts both. */
  function Sextet(c: char): (r: Option<nat>)
    ensures r.Some? ==> r.value < 64
  {
    if 'A' <= c <= 'Z' then Some((c - 'A') as nat) else
    if 'a' <= c <= 'z' then Some((c - 'a') as nat + 26) else
    if '0' <= c <= '9' then Some((c - '0') as nat + 52) else
    if c == '-' || c == '+' then Some(62) else
    if c == '_' || c == '/' then Some(63) else None
  }

  predicate UrlSafe(c: char) {
    'A' <= c <= 'Z' || 'a' <= c <= 'z' || '0' <= c <= '9' || c == '-' || c == '_'
  }

  lemma LetterHasSextet(x: nat)
    requires x < 64
    ensures Sextet(Letter(x)) == Some(x) && UrlSafe(Letter(x))
  {
  }

  // ---------------------------------------------------------------- encoding

  /** The characters for a group of one to three bytes, zero bits filling the last one. */
  function Group(bytes: seq<byte>): string
    requires 0 < |bytes| <= 3
  {
    var x := bytes[0] as nat;
    var y := if |bytes| > 1 then bytes[1] as nat else 0;
    var z := if |bytes| > 2 then bytes[2] as nat else 0;
    [Letter(x / 4), Letter(x % 4 * 16 + y / 16)] +
    (if |bytes| > 1 then [Letter(y % 16 * 4 + z / 64)] else []) +
    (if |bytes| > 2 then [Letter(z % 64)] else [])
  }

  function Letters(bytes: seq<byte>): string {
    if bytes == [] then "" else
    if |bytes| < 3 then Group(bytes) else Group(bytes[..3]) + Letters(bytes[3..])
  }

  /** The characters of all groups, filled up with '=' to a multiple of four. */
  function Encode(bytes: seq<byte>): string {
    Letters(bytes) + Equals(Missing(|bytes|))
  }

  function Missing(n: nat): nat {
    if n % 3 == 0 then 0 else 3 - n % 3
  }

  /** `rstrip("=")` */
  function Stripped(s: string): string {
    if s != "" && s[|s| - 1] == '=' then Stripped(s[..|s| - 1]) else s
  }

  function Equals(n: nat): string {
    if n == 0 then "" else "=" + Equals(n - 1)
  }

  function EncodeText(bytes: seq<byte>): string {
    Stripped(Encode(bytes))
  }

  // ---------------------------------------------------------------- decoding

  function ToByte(x: int): byte
    requires 0 <= x
  {
    (x % 256) as byte
  }

  /** The lenient decoder: `quad` is the position in the group of four, `left`
      the bits kept back and `pads` the padding seen.  Characters outside the
      alphabet are skipped, and a completed padding ends the input. */
  function Decode(s: string, quad: nat, left: nat, pads: nat): Option<seq<byte>>
    requires quad < 4
  {
    if s == "" then (if quad == 0 then Some([]) else None) else
    if s[0] == '=' then
      if quad >= 2 && quad + pads + 1 >= 4 then Some([])
      else Decode(s[1..], quad, left, if quad >= 2 then pads + 1 else pads)
    else match Sextet(s[0])
      case None => Decode(s[1..], quad, left, pads)
      case Some(x) =>
        if quad == 0 then Decode(s[1..], 1, x, 0) else
        match Decode(s[1..], (quad + 1) % 4, if quad == 1 then x % 16 else if quad == 2 then x % 4 else 0, 0)
        case None => None
        case Some(rest) =>
          Some([ToByte(if quad == 1 then left * 4 + x / 16 else if quad == 2 then left * 16 + x / 4
            else left * 64 + x)] + rest)
  }

  predicate Ascii(s: string) {
    forall i :: 0 <= i < |s| ==> s[i] < 128 as char
  }

  function Padding(n: int): nat {
    -n % 4
  }

  function DecodeText(value: string): Option<seq<byte>> {
    if !Ascii(value) then None else Decode(value + Equals(Padding(|value|)), 0, 0, 0)
  }

  // ---------------------------------------------------------------- the round trip

  lemma DecodeLetter(x: nat, rest: string, quad: nat, left: nat, pads: nat)
    requires x < 64 && quad < 4
    ensures var s := [Letter(x)] + rest;
      Decode(s, quad, left, pads) ==
      if quad == 0 then Decode(rest, 1, x, 0) else
      match Decode(rest, (quad + 1) % 4, if quad == 1 then x % 16 else if quad == 2 then x % 4 else 0, 0)
      case None => None
      case Some(more) =>
        Some([ToByte(if quad == 1 then left * 4 + x / 16 else if quad == 2 then left * 16 + x / 4 else left * 64 + x)] +
          more)
  {
    LetterHasSextet(x);
    var s := [Letter(x)] + rest;
    assert s[1..] == rest && s[0] == Letter(x);
  }

  function Joined(p: nat, q: nat, r: nat, t: nat): seq<byte> {
    [ToByte(p * 4 + q / 16), ToByte(q % 16 * 16 + r / 4), ToByte(r % 4 * 64 + t)]
  }

  function Prepended(bytes: seq<byte>, rest: Option<seq<byte>>): Option<seq<byte>> {
    match rest case None => None case Some(more) => Some(bytes + more)
  }

  lemma DecodeQuad(p: nat, q: nat, r: nat, t: nat, rest: string)
    requires p < 64 && q < 64 && r < 64 && t < 64
    ensures Decode([Letter(p), Letter(q), Letter(r), Letter(t)] + rest, 0, 0, 0) ==
      Prepended(Joined(p, q, r, t), Decode(rest, 0, 0, 0))
  {
    hide Decode, Letter, ToByte;
    var three := [Letter(t)] + rest;
    var two := [Letter(r)] + three;
    var one := [Letter(q)] + two;
    assert [Letter(p), Letter(q), Letter(r), Letter(t)] + rest == [Letter(p)] + one;
    DecodeLetter(p, one, 0, 0, 0);
    DecodeLetter(q, two, 1, p, 0);
    DecodeLetter(r, three, 2, q % 16, 0);
    DecodeLetter(t, rest, 3, r % 4, 0);
    if Decode(rest, 0, 0, 0).Some? {
      var more := Decode(rest, 0, 0, 0).value;
      var j := Joined(p, q, r, t);
      assert [j[0]] + ([j[1]] + ([j[2]] + more)) == j + more;
    }
  }

  lemma SplitBits(x: nat, y: nat)
    requires y < 256
    ensures (x % 4 * 16 + y / 16) / 16 == x % 4 && (x % 4 * 16 + y / 16) % 16 == y / 16
  {
  }

  lemma SplitMoreBits(y: nat, z: nat)
    requires z < 256
    ensures (y % 16 * 4 + z / 64) / 4 == y % 16 && (y % 16 * 4 + z / 64) % 4 == z / 64
  {
  }

  lemma GroupBytes(a: byte, b: byte, c: byte)
    ensures var x, y, z := a as nat, b as nat, c as nat;
      Joined(x / 4, x % 4 * 16 + y / 16, y % 16 * 4 + z / 64, z % 64) == [a, b, c]
  {
    SplitBits(a as nat, b as nat);
    SplitMoreBits(b as nat, c as nat);
  }

  lemma DecodeGroup(bytes: seq<byte>, rest: string)
    requires |bytes| == 3
    ensures Decode(Group(bytes) + rest, 0, 0, 0) == Prepended(bytes, Decode(rest, 0, 0, 0))
  {
    hide Decode, Letter, Joined;
    GroupBytes(bytes[0], bytes[1], bytes[2]);
    var x, y, z := bytes[0] as nat, bytes[1] as nat, bytes[2] as nat;
    DecodeQuad(x / 4, x % 4 * 16 + y / 16, y % 16 * 4 + z / 64, z % 64, rest);
    assert Group(bytes) == [Letter(x / 4), Letter(x % 4 * 16 + y / 16), Letter(y % 16 * 4 + z / 64), Letter(z % 64)];
    assert bytes == [bytes[0], bytes[1], bytes[2]];
  }

  lemma PaddingEnds()
    ensures forall left: nat :: Decode("==", 2, left, 0) == Some([])
    ensures forall left: nat :: Decode("=", 3, left, 0) == Some([])
    ensures Equals(2) == "==" && Equals(1) == "="
  {
    assert Equals(1) == "=";
    assert "=="[1..] == "=";
  }

  lemma DecodeOne(a: byte)
    ensures Decode(Group([a]) + Equals(2), 0, 0, 0) == Some([a])
  {
    hide Decode, Letter, Equals;
    PaddingEnds();
    var x := a as nat;
    assert Group([a]) + "==" == [Letter(x / 4)] + ([Letter(x % 4 * 16)] + "==");
    DecodeLetter(x / 4, [Letter(x % 4 * 16)] + "==", 0, 0, 0);
    DecodeLetter(x % 4 * 16, "==", 1, x / 4, 0);
    assert x / 4 * 4 + x % 4 * 16 / 16 == x;
    assert [a] + [] == [a];
  }

  lemma DecodeTwo(a: byte, b: byte)
    ensures Decode(Group([a, b]) + Equals(1), 0, 0, 0) == Some([a, b])
  {
    hide Decode, Letter, Equals, ToByte;
    GroupBytes(a, b, 0);
    PaddingEnds();
    var x, y := a as nat, b as nat;
    SplitBits(x, y);
    var two := [Letter(y % 16 * 4)] + "=";
    var one := [Letter(x % 4 * 16 + y / 16)] + two;
    assert Group([a, b]) + "=" == [Letter(x / 4)] + one;
    DecodeLetter(x / 4, one, 0, 0, 0);
    DecodeLetter(x % 4 * 16 + y / 16, two, 1, x / 4, 0);
    DecodeLetter(y % 16 * 4, "=", 2, y / 16, 0);
    assert [a] + ([b] + []) == [a, b];
  }

  /** Decoding an encoded byte string gives it back. */
  lemma {:induction false} DecodeEncode(bytes: seq<byte>)
    ensures Decode(Encode(bytes), 0, 0, 0) == Some(bytes)
  {
    hide Decode, Group, Equals;
    if |bytes| == 0 {
      EmptyDecodes();
      assert bytes == [];
    } else if |bytes| == 1 {
      DecodeOne(bytes[0]);
      assert bytes == [bytes[0]];
    } else if |bytes| == 2 {
      DecodeTwo(bytes[0], bytes[1]);
      assert bytes == [bytes[0], bytes[1]];
    } else {
      EncodeNext(bytes);
      DecodeEncode(bytes[3..]);
      DecodeGroup(bytes[..3], Encode(bytes[3..]));
      assert bytes == bytes[..3] + bytes[3..];
    }
  }

  lemma EmptyDecodes()
    ensures Decode(Encode([]), 0, 0, 0) == Some([])
  {
  }

  lemma LettersNext(bytes: seq<byte>)
    requires |bytes| >= 3
    ensures Letters(bytes) == Group(bytes[..3]) + Letters(bytes[3..])
  {
    hide Group;
  }

  lemma EncodeNext(bytes: seq<byte>)
    requires |bytes| >= 3
    ensures Encode(bytes) == Group(bytes[..3]) + Encode(bytes[3..])
  {
    hide Group, Equals, Missing, Letters;
    LettersNext(bytes);
    SameMissing(|bytes|);
    Associative(Group(bytes[..3]), Letters(bytes[3..]), Equals(Missing(|bytes|)));
  }

  lemma SameMissing(n: nat)
    requires n >= 3
    ensures Missing(n) == Missing(n - 3)
  {
  }

  lemma Associative(a: string, b: string, c: string)
    ensures a + b + c == a + (b + c)
  {
  }

  // ---------------------------------------------------------------- padding from the length alone

  lemma GroupShape(bytes: seq<byte>)
    requires 0 < |bytes| <= 3
    ensures |Group(bytes)| == |bytes| + 1 && forall i :: 0 <= i < |Group(bytes)| ==> UrlSafe(Group(bytes)[i])
  {
    var x := bytes[0] as nat;
    var y := if |bytes| > 1 then bytes[1] as nat else 0;
    var z := if |bytes| > 2 then bytes[2] as nat else 0;
    LetterHasSextet(x / 4);
    LetterHasSextet(x % 4 * 16 + y / 16);
    LetterHasSextet(y % 16 * 4 + z / 64);
    LetterHasSextet(z % 64);
    hide Letter;
  }

  /** Four characters for three bytes, every character safe in a URL. */
  lemma {:induction false} LettersShape(bytes: seq<byte>)
    ensures |Letters(bytes)| == (4 * |bytes| + 2) / 3
    ensures forall i :: 0 <= i < |Letters(bytes)| ==> UrlSafe(Letters(bytes)[i])
  {
    hide Group;
    if bytes == [] {
    } else {
      if |bytes| < 3 {
        GroupShape(bytes);
      } else {
        LettersNext(bytes);
        GroupShape(bytes[..3]);
        LettersShape(bytes[3..]);
      }
    }
  }

  lemma {:induction false} StripEquals(s: string, n: nat)
    requires s == "" || s[|s| - 1] != '='
    ensures Stripped(s + Equals(n)) == s
  {
    if n == 0 {
      assert s + "" == s;
    } else {
      EqualsEnd(n);
      var t := s + Equals(n);
      assert t[..|t| - 1] == s + Equals(n - 1);
      StripEquals(s, n - 1);
    }
  }

  lemma {:induction false} EqualsEnd(n: nat)
    requires n > 0
    ensures |Equals(n)| == n && Equals(n)[n - 1] == '=' && Equals(n)[..n - 1] == Equals(n - 1)
  {
    if n <= 1 {
    } else {
      EqualsEnd(n - 1);
    }
  }

  lemma PaddingIsMissing(n: nat)
    ensures Padding((4 * n + 2) / 3) == Missing(n)
  {
    var q, r := n / 3, n % 3;
    assert (4 * n + 2) / 3 == 4 * q + (4 * r + 2) / 3;
  }

  /** Stripping the padding loses nothing: the length tells how much there was. */
  lemma PaddingIsRestored(bytes: seq<byte>)
    ensures EncodeText(bytes) == Letters(bytes)
    ensures EncodeText(bytes) + Equals(Padding(|EncodeText(bytes)|)) == Encode(bytes)
  {
    hide Letters, Equals, Stripped;
    LettersShape(bytes);
    StripEquals(Letters(bytes), Missing(|bytes|));
    PaddingIsMissing(|bytes|);
  }

  /** Every byte string survives encoding, stripping, padding again and decoding. */
  lemma TextRoundTrip(bytes: seq<byte>)
    ensures DecodeText(EncodeText(bytes)) == Some(bytes)
    ensures forall i :: 0 <= i < |EncodeText(bytes)| ==> UrlSafe(EncodeText(bytes)[i])
  {
    hide Letters, Equals, Stripped, Encode, Decode;
    PaddingIsRestored(bytes);
    LettersShape(bytes);
    DecodeEncode(bytes);
  }

  // ---------------------------------------------------------------- which texts decode

  /** Whether decoding reaches a proper end; the bits do not matter. */
  predicate Completes(s: string, quad: nat, pads: nat) {
    if s == "" then quad == 0 else
    if s[0] == '=' then (quad >= 2 && quad + pads + 1 >= 4) ||
      Completes(s[1..], quad, if quad >= 2 then pads + 1 else pads)
    else if Sextet(s[0]).None? then Completes(s[1..], quad, pads)
    else Completes(s[1..], (quad + 1) % 4, 0)
  }

  lemma {:induction false} CompletesIsExact(s: string, quad: nat, left: nat, pads: nat)
    requires quad < 4
    ensures Decode(s, quad, left, pads).Some? <==> Completes(s, quad, pads)
  {
    if s == "" {
    } else {
      hide ToByte;
      if s[0] == '=' {
        CompletesIsExact(s[1..], quad, left, if quad >= 2 then pads + 1 else pads);
      } else {
        match Sextet(s[0])
        case None => CompletesIsExact(s[1..], quad, left, pads);
        case Some(x) =>
          CompletesIsExact(s[1..], (quad + 1) % 4, if quad == 0 then x else if quad == 1 then x % 16
            else if quad == 2 then x % 4 else 0, 0);
      }
    }
  }

  lemma {:induction false} LettersThenEquals(s: string, n: nat, quad: nat)
    requires quad < 4 && forall i :: 0 <= i < |s| ==> Sextet(s[i]).Some?
    ensures Completes(s + Equals(n), quad, 0) <==> Completes(Equals(n), (quad + |s|) % 4, 0)
  {
    hide *;
    if s == "" {
      assert s + Equals(n) == Equals(n);
    } else {
      LetterCompletes(s[0], s[1..] + Equals(n), quad);
      assert s + Equals(n) == [s[0]] + (s[1..] + Equals(n));
      LettersThenEquals(s[1..], n, (quad + 1) % 4);
      assert ((quad + 1) % 4 + |s[1..]|) % 4 == (quad + |s|) % 4;
    }
  }

  lemma LetterCompletes(c: char, rest: string, quad: nat)
    requires quad < 4 && Sextet(c).Some?
    ensures Completes([c] + rest, quad, 0) <==> Completes(rest, (quad + 1) % 4, 0)
  {
    EqualsIsNoLetter();
    hide Sextet;
    assert ([c] + rest)[1..] == rest;
  }

  lemma EqualsIsNoLetter()
    ensures Sextet('=').None?
  {
  }

  lemma EqualsComplete(quad: nat)
    requires quad < 4
    ensures Completes(Equals(Padding(quad)), quad, 0) <==> quad != 1
  {
    assert Equals(1) == "=" && Equals(2) == "==" && Equals(3) == "===";
    assert "==="[1..] == "==" && "=="[1..] == "=";
    hide Sextet;
    if quad == 1 {
      assert !Completes("=", 1, 0);
      assert !Completes("==", 1, 0);
    } else if quad == 2 {
      assert Completes("=", 2, 1);
    }
  }

  /** A text of alphabet characters alone decodes unless its length leaves a single character over. */
  lemma AlphabetTextDecodes(value: string)
    requires forall i :: 0 <= i < |value| ==> Sextet(value[i]).Some?
    ensures DecodeText(value).Some? <==> |value| % 4 != 1
  {
    forall i | 0 <= i < |value| ensures value[i] < 128 as char {
      AlphabetIsAscii(value[i]);
    }
    hide Decode, Completes, Equals, Sextet;
    CompletesIsExact(value + Equals(Padding(|value|)), 0, 0, 0);
    LettersThenEquals(value, Padding(|value|), 0);
    EqualsComplete(|value| % 4);
    assert Padding(|value|) == Padding(|value| % 4);
  }

  lemma AlphabetIsAscii(c: char)
    requires Sextet(c).Some?
    ensures c < 128 as char
  {
  }

  // ---------------------------------------------------------------- reference values

  lemma FullGroups()
    ensures Group([102, 111, 111]) == "Zm9v" && Group([98, 97, 114]) == "YmFy"
  {
    hide *;
    FirstGroup();
    SecondGroup();
  }

  lemma FirstGroup()
    ensures Group([102, 111, 111]) == "Zm9v"
  {
  }

  lemma SecondGroup()
    ensures Group([98, 97, 114]) == "YmFy"
  {
  }

  /** The URL-safe alphabet of section 5 of RFC 4648, in its order. */
  lemma AlphabetIsStandard(i: nat)
    ensures i < 26 ==> Letter(i) as int == 0x41 + i && Letter(i + 26) as int == 0x61 + i
    ensures i < 10 ==> Letter(i + 52) as int == 0x30 + i
    ensures Letter(62) == '-' && Letter(63) == '_'
  {
  }

  /** A character outside both alphabets and the padding is skipped. */
  lemma {:induction false} JunkIsSkipped(a: string, c: char, b: string, quad: nat, left: nat, pads: nat)
    requires quad < 4
    requires !('A' <= c <= 'Z' || 'a' <= c <= 'z' || '0' <= c <= '9') && c !in "-_+/="
    ensures Decode(a + [c] + b, quad, left, pads) == Decode(a + b, quad, left, pads)
    decreases |a|
  {
    if a == "" {
      assert "" + [c] + b == [c] + b && "" + b == b && ([c] + b)[1..] == b;
    } else {
      assert (a + [c] + b)[1..] == a[1..] + [c] + b && (a + b)[1..] == a[1..] + b;
      assert (a + [c] + b)[0] == a[0] == (a + b)[0];
      forall q: nat, l: nat, p: nat | q < 4
        ensures Decode(a[1..] + [c] + b, q, l, p) == Decode(a[1..] + b, q, l, p)
      {
        JunkIsSkipped(a[1..], c, b, q, l, p);
      }
      hide Sextet, ToByte;
    }
  }

  /** The decoder reads the two characters of the standard alphabet as well. */
  lemma StandardAlphabetIsRead(rest: string, quad: nat, left: nat, pads: nat)
    requires quad < 4
    ensures Decode("+" + rest, quad, left, pads) == Decode("-" + rest, quad, left, pads)
    ensures Decode("/" + rest, quad, left, pads) == Decode("_" + rest, quad, left, pads)
  {
    assert ("+" + rest)[1..] == ("-" + rest)[1..] == ("/" + rest)[1..] == ("_" + rest)[1..] == rest;
    assert Sextet('+') == Sextet('-') && Sextet('/') == Sextet('_');
    hide Sextet, ToByte;
  }

  /** The two characters that make the alphabet safe in URLs. */
  lemma SafeCharacters()
    ensures Group([251, 255, 191]) == "-_-_"
  {
  }

  lemma PartGroups()
    ensures Group([102]) == "Zg" && Group([102, 111]) == "Zm8"
    ensures Group([98]) == "Yg" && Group([98, 97]) == "YmE"
  {
  }

  lemma EncodeShort(bytes: seq<byte>)
    requires 0 < |bytes| <= 3
    ensures Encode(bytes) == Group(bytes) + Equals(3 - |bytes|)
  {
    hide Group, Equals;
    if |bytes| == 3 {
      LettersNext(bytes);
      assert bytes[..3] == bytes && bytes[3..] == [];
    }
  }

  lemma EncodeLong(three: seq<byte>, rest: seq<byte>)
    requires |three| == 3 && 0 < |rest| <= 3
    ensures Encode(three + rest) == Group(three) + (Group(rest) + Equals(3 - |rest|))
  {
    hide Group, Equals, Encode;
    EncodeNext(three + rest);
    assert (three + rest)[..3] == three && (three + rest)[3..] == rest;
    EncodeShort(rest);
  }

  /** The test vectors of section 10 of RFC 4648: the beginnings of "foobar". */
  lemma TestVectors(n: nat)
    requires n <= 6
    ensures Encode([102, 111, 111, 98, 97, 114][..n]) ==
      ["", "Zg==", "Zm8=", "Zm9v", "Zm9vYg==", "Zm9vYmE=", "Zm9vYmFy"][n]
  {
    FullGroups();
    PartGroups();
    PaddingEnds();
    var foo: seq<byte>, bar: seq<byte> := [102, 111, 111], [98, 97, 114];
    var all := foo + bar;
    assert [102, 111, 111, 98, 97, 114] == all;
    hide Group, Encode, Decode, Equals;
    if n == 0 {
      EmptyEncodes();
    } else if n <= 3 {
      assert all[..n] == foo[..n];
      EncodeShort(foo[..n]);
      ShortOnes(n);
    } else {
      assert all[..n] == foo + bar[..n - 3];
      EncodeLong(foo, bar[..n - 3]);
      ShortTwos(n - 3);
    }
  }

  lemma EmptyEncodes()
    ensures Encode([]) == ""
  {
  }

  lemma ShortOnes(n: nat)
    requires 0 < n <= 3
    ensures Group([102, 111, 111][..n]) + Equals(3 - n) == ["Zg==", "Zm8=", "Zm9v"][n - 1]
  {
    FullGroups();
    PartGroups();
    PaddingEnds();
    assert [102, 111, 111][..1] == [102] && [102, 111, 111][..2] == [102, 111] &&
      [102, 111, 111][..3] == [102, 111, 111];
    hide Group, Decode;
  }

  lemma NoEquals()
    ensures Equals(0) == ""
  {
  }

  lemma ShortTwos(n: nat)
    requires 0 < n <= 3
    ensures "Zm9v" + (Group([98, 97, 114][..n]) + Equals(3 - n)) == ["Zm9vYg==", "Zm9vYmE=", "Zm9vYmFy"][n - 1]
  {
    FullGroups();
    PartGroups();
    PaddingEnds();
    hide *;
    if n == 1 {
      assert [98, 97, 114][..1] == [98] && "Zm9v" + ("Yg" + "==") == "Zm9vYg==";
    } else if n == 2 {
      assert [98, 97, 114][..2] == [98, 97] && "Zm9v" + ("YmE" + "=") == "Zm9vYmE=";
    } else {
      NoEquals();
      assert [98, 97, 114][..3] == [98, 97, 114] && "Zm9v" + ("YmFy" + "") == "Zm9vYmFy";
    }
  }
}
