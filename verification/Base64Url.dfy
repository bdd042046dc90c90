/** base64url with stripped padding (section 5 of RFC 4648) as the gateway writes and reads it
    (api-gateway/gateway/flow_token.py) and as the editor side reads it (flow/admin-token.js). */
module Base64Url {
  import opened Basics

  type byte = b: int | 0 <= b < 256
  type sextet = v: int | 0 <= v < 64
  type Bytes = seq<byte>

  // ── writing ────────────────────────────────────────────────────────────────

  function Letter(v: sextet): char {
    if v < 26 then ('A' as int + v) as char
    else if v < 52 then ('a' as int + v - 26) as char
    else if v < 62 then ('0' as int + v - 52) as char
    else if v == 62 then '-' else '_'
  }

  function Encode3(a: byte, b: byte, c: byte): string {
    [Letter(a / 4), Letter(a % 4 * 16 + b / 16), Letter(b % 16 * 4 + c / 64), Letter(c % 64)]
  }

  /** The padded form: groups of four letters, the last one filled up with '='. */
  function Padded(data: Bytes): string {
    if data == [] then ""
    else if |data| == 1 then [Letter(data[0] / 4), Letter(data[0] % 4 * 16), '=', '=']
    else if |data| == 2 then
      [Letter(data[0] / 4), Letter(data[0] % 4 * 16 + data[1] / 16), Letter(data[1] % 16 * 4), '=']
    else Encode3(data[0], data[1], data[2]) + Padded(data[3..])
  }

  function RStrip(text: string): string {
    if text != "" && text[|text| - 1] == '=' then RStrip(text[..|text| - 1]) else text
  }

  function Encode(data: Bytes): string {
    RStrip(Padded(data))
  }

  // ── the three bytes of a group ─────────────────────────────────────────────────

  function First(v: sextet, w: sextet): byte
  {
    v as int * 4 + w / 16
  }

  function Second(v: sextet, w: sextet): byte
  {
    v as int % 16 * 16 + w / 4
  }

  function Third(v: sextet, w: sextet): byte
  {
    v as int % 4 * 64 + w
  }

  lemma GroupBytes(a: byte, b: byte, c: byte, v0: int, v1: int, v2: int, v3: int)
    requires v0 == a / 4 && v1 == a % 4 * 16 + b / 16 && v2 == b % 16 * 4 + c / 64 && v3 == c % 64
    ensures 0 <= v0 < 64 && 0 <= v1 < 64 && 0 <= v2 < 64 && 0 <= v3 < 64
    ensures First(v0, v1) == a && Second(v1, v2) == b && Third(v2, v3) == c
  {
  }

  lemma LoneByte(a: byte, v0: int, v1: int)
    requires v0 == a / 4 && v1 == a % 4 * 16
    ensures 0 <= v0 < 64 && 0 <= v1 < 64 && First(v0, v1) == a
  {
  }

  // ── reading, gateway side ──────────────────────────────────────────────────────

  /** A letter's value in either alphabet, or none for any other character. */
  function Value(c: char): Option<sextet> {
    if 'A' <= c <= 'Z' then Some(c as int - 'A' as int)
    else if 'a' <= c <= 'z' then Some(c as int - 'a' as int + 26)
    else if '0' <= c <= '9' then Some(c as int - '0' as int + 52)
    else if c == '-' || c == '+' then Some(62)
    else if c == '_' || c == '/' then Some(63)
    else None
  }

  function Prepended(head: Bytes, rest: Option<Bytes>): Option<Bytes> {
    if rest.Some? then Some(head + rest.value) else None
  }

  /** The lenient reader: quad is the place in the group of four, last the letter before, pads the '='
      seen since. Other characters are passed over; enough padding ends the text; a text that ends
      inside a group is an error. */
  function Scan(text: string, quad: nat, last: sextet, pads: nat): Option<Bytes>
    requires quad < 4
  {
    if text == "" then (if quad == 0 then Some([]) else None)
    else if text[0] == '=' then
      if quad >= 2 && quad + pads + 1 >= 4 then Some([])
      else Scan(text[1..], quad, last, if quad >= 2 then pads + 1 else pads)
    else
      match Value(text[0])
      case None => Scan(text[1..], quad, last, pads)
      case Some(v) =>
        if quad == 0 then Scan(text[1..], 1, v, 0)
        else if quad == 1 then Prepended([First(last, v)], Scan(text[1..], 2, v, 0))
        else if quad == 2 then Prepended([Second(last, v)], Scan(text[1..], 3, v, 0))
        else Prepended([Third(last, v)], Scan(text[1..], 0, 0, 0))
  }

  function Equals(n: nat): string {
    seq(n, _ => '=')
  }

  /** Put the padding back, then read. */
  function Decode(text: string): Option<Bytes> {
    Scan(text + Equals(Missing(|text|)), 0, 0, 0)
  }

  // ── reading, editor side ───────────────────────────────────────────────────────

  /** The letters up to the first '='; characters outside the alphabet, which no minted token holds,
      are passed over. */
  function Letters(text: string): seq<sextet> {
    if text == "" || text[0] == '=' then []
    else match Value(text[0])
         case None => Letters(text[1..])
         case Some(v) => [v] + Letters(text[1..])
  }

  /** Whole bytes only; a lone last letter and left-over bits are dropped. */
  function Packed(v: seq<sextet>): Bytes {
    if |v| < 2 then []
    else if |v| == 2 then [First(v[0], v[1])]
    else if |v| == 3 then [First(v[0], v[1]), Second(v[1], v[2])]
    else [First(v[0], v[1]), Second(v[1], v[2]), Third(v[2], v[3])] + Packed(v[4..])
  }

  function BufferDecode(text: string): Bytes {
    Packed(Letters(text))
  }

  // ── round trips ────────────────────────────────────────────────────────────

  lemma LetterValue(v: sextet)
    ensures Value(Letter(v)) == Some(v) && Letter(v) != '=' && Letter(v) != '.'
  {
  }

  /** The letters are those of the standard's URL alphabet, three runs and two signs; the readers take '+'
      and '/' as well, and nothing else. */
  lemma StandardAlphabet(v: sextet, c: char)
    ensures Letter(0) == 'A' && Letter(26) == 'a' && Letter(52) == '0' && Letter(62) == '-' && Letter(63) == '_'
    ensures v < 61 && v != 25 && v != 51 ==> Letter(v + 1) as int == Letter(v) as int + 1
    ensures Value(c) == Some(v) <==> c == Letter(v) || (v == 62 && c == '+') || (v == 63 && c == '/')
    ensures Value(c).None? ==> !('A' <= c <= 'Z' || 'a' <= c <= 'z' || '0' <= c <= '9' || c in "-_+/")
  {
  }

  /** The standard's own examples, without their padding. */
  lemma StandardExamples()
    ensures Encode([102]) == "Zg" && Encode([102, 111]) == "Zm8" && Encode([102, 111, 111]) == "Zm9v"
    ensures Encode([102, 111, 111, 98, 97, 114]) == "Zm9vYmFy"
  {
    EncodeIsBare([102]);
    EncodeIsBare([102, 111]);
    EncodeIsBare([102, 111, 111]);
    EncodeIsBare([102, 111, 111, 98, 97, 114]);
    assert Encode3(102, 111, 111) == "Zm9v" && Encode3(98, 97, 114) == "YmFy";
  }

  /** Padding ends the text where it completes a group of at least two letters; before that it is passed
      over like any other character. */
  lemma PaddingMeaning(letter: char, rest: string, last: sextet)
    requires Value(letter).Some?
    ensures Scan(['='] + (['='] + rest), 2, last, 0) == Some([]) && Scan(['='] + rest, 3, last, 0) == Some([])
    ensures Scan(['='] + ([letter] + rest), 2, last, 0) == Scan([letter] + rest, 2, last, 0)
    ensures Scan(['='] + rest, 0, last, 0) == Scan(rest, 0, last, 0)
    ensures Scan(['='] + rest, 1, last, 0) == Scan(rest, 1, last, 0)
  {
    assert (['='] + rest)[1..] == rest && (['='] + (['='] + rest))[1..] == ['='] + rest;
    assert (['='] + ([letter] + rest))[1..] == [letter] + rest;
    assert letter != '=';
  }

  /** A character that is neither a letter nor padding is passed over wherever it stands. */
  lemma {:induction false} JunkSkipped(before: string, c: char, after: string, quad: nat, last: sextet, pads: nat)
    requires quad < 4 && Value(c).None? && c != '='
    ensures Scan(before + ([c] + after), quad, last, pads) == Scan(before + after, quad, last, pads)
  {
    if before == "" {
      assert before + ([c] + after) == [c] + after && before + after == after && ([c] + after)[1..] == after;
    } else {
      var x, rest := before[0], before[1..];
      assert (before + ([c] + after))[1..] == rest + ([c] + after) && (before + after)[1..] == rest + after;
      if x == '=' {
        JunkSkipped(rest, c, after, quad, last, if quad >= 2 then pads + 1 else pads);
      } else if Value(x).None? {
        JunkSkipped(rest, c, after, quad, last, pads);
      } else if quad == 3 {
        JunkSkipped(rest, c, after, 0, 0, 0);
      } else {
        JunkSkipped(rest, c, after, quad + 1, Value(x).value, 0);
      }
    }
  }

  /** The padded form without its padding. */
  function Bare(data: Bytes): string {
    if data == [] then ""
    else if |data| == 1 then [Letter(data[0] / 4), Letter(data[0] % 4 * 16)]
    else if |data| == 2 then
      [Letter(data[0] / 4), Letter(data[0] % 4 * 16 + data[1] / 16), Letter(data[1] % 16 * 4)]
    else Encode3(data[0], data[1], data[2]) + Bare(data[3..])
  }

  lemma {:induction false} BareLetters(data: Bytes, k: nat)
    requires k < |Bare(data)|
    ensures Value(Bare(data)[k]).Some? && Bare(data)[k] != '=' && Bare(data)[k] != '.'
  {
    if |data| >= 3 && k >= 4 {
      BareLetters(data[3..], k - 4);
    } else if |data| >= 3 {
      LetterValue(data[0] / 4);
      LetterValue(data[0] % 4 * 16 + data[1] / 16);
      LetterValue(data[1] % 16 * 4 + data[2] / 64);
      LetterValue(data[2] % 64);
    } else if |data| == 2 {
      LetterValue(data[0] / 4);
      LetterValue(data[0] % 4 * 16 + data[1] / 16);
      LetterValue(data[1] % 16 * 4);
    } else if |data| == 1 {
      LetterValue(data[0] / 4);
      LetterValue(data[0] % 4 * 16);
    }
  }

  function Missing(n: nat): nat {
    (4 - n % 4) % 4
  }

  lemma MissingPeriod(n: nat)
    ensures Missing(n + 4) == Missing(n)
  {
  }

  lemma {:induction false} BareShape(data: Bytes)
    ensures Padded(data) == Bare(data) + Equals(Missing(|Bare(data)|))
  {
    if |data| >= 3 {
      BareShape(data[3..]);
      var rest := Bare(data[3..]);
      var e := Encode3(data[0], data[1], data[2]);
      MissingPeriod(|rest|);
      var fill := Equals(Missing(|rest|));
      assert e + (rest + fill) == (e + rest) + fill;
    } else if |data| == 2 {
      assert Equals(1) == "=";
    } else if |data| == 1 {
      assert Equals(2) == "==";
    }
  }

  lemma {:induction false} RStripEquals(text: string, n: nat)
    requires text == "" || text[|text| - 1] != '='
    ensures RStrip(text + Equals(n)) == text
  {
    var all := text + Equals(n);
    if n == 0 {
      assert all == text;
    } else {
      assert all[..|all| - 1] == text + Equals(n - 1);
      RStripEquals(text, n - 1);
    }
  }

  /** Stripping takes exactly the padding: letters stay. */
  lemma EncodeIsBare(data: Bytes)
    ensures Encode(data) == Bare(data)
  {
    BareShape(data);
    if Bare(data) != "" {
      BareLetters(data, |Bare(data)| - 1);
    }
    RStripEquals(Bare(data), Missing(|Bare(data)|));
  }

  /** Only letters of the alphabet: neither padding nor the token's separator. */
  lemma EncodedAlphabet(data: Bytes)
    ensures forall k :: 0 <= k < |Encode(data)| ==> Encode(data)[k] != '.' && Encode(data)[k] != '='
  {
    EncodeIsBare(data);
    forall k | 0 <= k < |Bare(data)| ensures Bare(data)[k] != '.' && Bare(data)[k] != '=' {
      BareLetters(data, k);
    }
  }

  lemma ScanLetter(v: sextet, rest: string, quad: nat, last: sextet)
    requires quad < 4
    ensures Scan([Letter(v)] + rest, quad, last, 0) ==
            if quad == 0 then Scan(rest, 1, v, 0)
            else if quad == 1 then Prepended([First(last, v)], Scan(rest, 2, v, 0))
            else if quad == 2 then Prepended([Second(last, v)], Scan(rest, 3, v, 0))
            else Prepended([Third(last, v)], Scan(rest, 0, 0, 0))
  {
    LetterValue(v);
    assert ([Letter(v)] + rest)[1..] == rest;
  }

  lemma ScanFour(a: byte, b: byte, c: byte, rest: string)
    ensures Scan(Encode3(a, b, c) + rest, 0, 0, 0) == Prepended([a, b, c], Scan(rest, 0, 0, 0))
  {
    var v0, v1, v2, v3 := a / 4, a % 4 * 16 + b / 16, b % 16 * 4 + c / 64, c % 64;
    assert Encode3(a, b, c) + rest == [Letter(v0)] + ([Letter(v1)] + ([Letter(v2)] + ([Letter(v3)] + rest)));
    GroupBytes(a, b, c, v0, v1, v2, v3);
    ScanGroup(a, b, c, v0, v1, v2, v3, rest);
  }

  /** The second half of a group. */
  lemma ScanHalf(v1: sextet, v2: sextet, v3: sextet, rest: string)
    ensures Scan([Letter(v2)] + ([Letter(v3)] + rest), 2, v1, 0)
            == Prepended([Second(v1, v2), Third(v2, v3)], Scan(rest, 0, 0, 0))
  {
    ScanLetter(v2, [Letter(v3)] + rest, 2, v1);
    ScanLetter(v3, rest, 3, v2);
    PrependedTwice([Second(v1, v2)], [Third(v2, v3)], Scan(rest, 0, 0, 0));
    assert [Second(v1, v2)] + [Third(v2, v3)] == [Second(v1, v2), Third(v2, v3)];
  }

  lemma PrependedTwice(a: Bytes, b: Bytes, rest: Option<Bytes>)
    ensures Prepended(a, Prepended(b, rest)) == Prepended(a + b, rest)
  {
    if rest.Some? {
      assert a + (b + rest.value) == (a + b) + rest.value;
    }
  }

  lemma ScanGroup(a: byte, b: byte, c: byte, v0: sextet, v1: sextet, v2: sextet, v3: sextet, rest: string)
    requires First(v0, v1) == a && Second(v1, v2) == b && Third(v2, v3) == c
    ensures Scan([Letter(v0)] + ([Letter(v1)] + ([Letter(v2)] + ([Letter(v3)] + rest))), 0, 0, 0)
            == Prepended([a, b, c], Scan(rest, 0, 0, 0))
  {
    var half := [Letter(v2)] + ([Letter(v3)] + rest);
    ScanHalf(v1, v2, v3, rest);
    ScanLetter(v1, half, 1, v0);
    ScanLetter(v0, [Letter(v1)] + half, 0, 0);
    PrependedTwice([a], [b, c], Scan(rest, 0, 0, 0));
    assert [a] + [b, c] == [a, b, c];
  }

  lemma ScanEnd(last: sextet)
    ensures Scan("=", 3, last, 0) == Some([]) && Scan("==", 2, last, 0) == Some([])
  {
    assert Scan("=", 2, last, 1) == Some([]);
    assert "=="[1..] == "=";
  }

  lemma ScanTwo(a: byte, v0: sextet, v1: sextet)
    requires v0 == a / 4 && v1 == a % 4 * 16 && First(v0, v1) == a
    ensures Scan(Padded([a]), 0, 0, 0) == Some([a])
  {
    var end := "==";
    assert Padded([a]) == [Letter(v0)] + ([Letter(v1)] + end);
    ScanEnd(v1);
    ScanLetter(v0, [Letter(v1)] + end, 0, 0);
    ScanLetter(v1, end, 1, v0);
    var none: Bytes := [];
    assert [a] + none == [a];
  }

  lemma ScanThree(a: byte, b: byte, v0: sextet, v1: sextet, v2: sextet)
    requires v0 == a / 4 && v1 == a % 4 * 16 + b / 16 && v2 == b % 16 * 4
    requires First(v0, v1) == a && Second(v1, v2) == b
    ensures Scan(Padded([a, b]), 0, 0, 0) == Some([a, b])
  {
    var end := "=";
    var r2 := [Letter(v2)] + end;
    var r1 := [Letter(v1)] + r2;
    assert Padded([a, b]) == [Letter(v0)] + r1;
    ScanLetter(v0, r1, 0, 0);
    ScanLetter(v1, r2, 1, v0);
    ScanLetter(v2, end, 2, v1);
    ScanEnd(v2);
    var none: Bytes := [];
    assert [a] + ([b] + none) == [a, b];
  }

  lemma ScanOneByte(a: byte)
    ensures Scan(Padded([a]), 0, 0, 0) == Some([a])
  {
    var v0, v1 := a / 4, a % 4 * 16;
    LoneByte(a, v0, v1);
    ScanTwo(a, v0, v1);
  }

  lemma ScanTwoBytes(a: byte, b: byte)
    ensures Scan(Padded([a, b]), 0, 0, 0) == Some([a, b])
  {
    var v0, v1, v2 := a / 4, a % 4 * 16 + b / 16, b % 16 * 4;
    GroupBytes(a, b, 0, v0, v1, v2, 0);
    ScanThree(a, b, v0, v1, v2);
  }

  lemma {:induction false} ScanPadded(data: Bytes)
    ensures Scan(Padded(data), 0, 0, 0) == Some(data)
  {
    if |data| == 1 {
      ScanOneByte(data[0]);
      assert data == [data[0]];
    } else if |data| == 2 {
      ScanTwoBytes(data[0], data[1]);
      assert data == [data[0], data[1]];
    } else if |data| >= 3 {
      ScanPadded(data[3..]);
      ScanFour(data[0], data[1], data[2], Padded(data[3..]));
      assert data == [data[0], data[1], data[2]] + data[3..];
    }
  }

  /** Every byte string decodes back on the gateway side. */
  lemma GatewayRoundTrip(data: Bytes)
    ensures Decode(Encode(data)) == Some(data)
  {
    EncodeIsBare(data);
    BareShape(data);
    ScanPadded(data);
  }

  lemma LettersLetter(v: sextet, rest: string)
    ensures Letters([Letter(v)] + rest) == [v] + Letters(rest)
  {
    LetterValue(v);
    assert ([Letter(v)] + rest)[1..] == rest;
  }

  lemma PackedFour(a: byte, b: byte, c: byte, rest: string)
    ensures Packed(Letters(Encode3(a, b, c) + rest)) == [a, b, c] + Packed(Letters(rest))
  {
    var v0, v1, v2, v3 := a / 4, a % 4 * 16 + b / 16, b % 16 * 4 + c / 64, c % 64;
    var r3 := [Letter(v3)] + rest;
    var r2 := [Letter(v2)] + r3;
    var r1 := [Letter(v1)] + r2;
    assert Encode3(a, b, c) + rest == [Letter(v0)] + r1;
    LettersLetter(v0, r1);
    LettersLetter(v1, r2);
    LettersLetter(v2, r3);
    LettersLetter(v3, rest);
    GroupBytes(a, b, c, v0, v1, v2, v3);
    var all := Letters([Letter(v0)] + r1);
    assert all == [v0, v1, v2, v3] + Letters(rest);
    assert all[4..] == Letters(rest);
  }

  lemma PackedOne(a: byte, v0: sextet, v1: sextet)
    requires v0 == a / 4 && v1 == a % 4 * 16 && First(v0, v1) == a
    ensures Packed(Letters(Bare([a]))) == [a]
  {
    LettersLetter(v0, [Letter(v1)] + "");
    LettersLetter(v1, "");
    assert Bare([a]) == [Letter(v0)] + ([Letter(v1)] + "");
  }

  lemma PackedTwo(a: byte, b: byte, v0: sextet, v1: sextet, v2: sextet)
    requires v0 == a / 4 && v1 == a % 4 * 16 + b / 16 && v2 == b % 16 * 4
    requires First(v0, v1) == a && Second(v1, v2) == b
    ensures Packed(Letters(Bare([a, b]))) == [a, b]
  {
    LettersLetter(v0, [Letter(v1)] + ([Letter(v2)] + ""));
    LettersLetter(v1, [Letter(v2)] + "");
    LettersLetter(v2, "");
    assert Bare([a, b]) == [Letter(v0)] + ([Letter(v1)] + ([Letter(v2)] + ""));
  }

  lemma PackedOneByte(a: byte)
    ensures Packed(Letters(Bare([a]))) == [a]
  {
    var v0, v1 := a / 4, a % 4 * 16;
    LoneByte(a, v0, v1);
    PackedOne(a, v0, v1);
  }

  lemma PackedTwoBytes(a: byte, b: byte)
    ensures Packed(Letters(Bare([a, b]))) == [a, b]
  {
    var v0, v1, v2 := a / 4, a % 4 * 16 + b / 16, b % 16 * 4;
    GroupBytes(a, b, 0, v0, v1, v2, 0);
    PackedTwo(a, b, v0, v1, v2);
  }

  lemma {:induction false} PackedBare(data: Bytes)
    ensures Packed(Letters(Bare(data))) == data
  {
    if |data| == 1 {
      PackedOneByte(data[0]);
      assert data == [data[0]];
    } else if |data| == 2 {
      PackedTwoBytes(data[0], data[1]);
      assert data == [data[0], data[1]];
    } else if |data| >= 3 {
      PackedBare(data[3..]);
      PackedFour(data[0], data[1], data[2], Bare(data[3..]));
      assert data == [data[0], data[1], data[2]] + data[3..];
    }
  }

  /** And on the editor side. */
  lemma EditorRoundTrip(data: Bytes)
    ensures BufferDecode(Encode(data)) == data
  {
    EncodeIsBare(data);
    PackedBare(data);
  }
}
