/** The base64 codec (sections 4 and 5 of RFC 4648). Characters are bytes. */
module Base64 {
  import opened Options

  type Byte = bv8
  type Bytes = seq<Byte>

  datatype Alphabet = Auto | Standard | UrlSafe

  datatype Behavior = Moderate | Loose

  const PAD: Byte := 61
  const PLUS: Byte := 43
  const SLASH: Byte := 47
  const MINUS: Byte := 45
  const UNDERSCORE: Byte := 95

  /** The character for six bits: A-Z, a-z, 0-9 and two more that depend on the alphabet. */
  function Letter(url: bool, x: Byte): Byte {
    if x < 26 then 65 + x
    else if x < 52 then 97 + (x - 26)
    else if x < 62 then 48 + (x - 52)
    else if x == 62 then (if url then MINUS else PLUS)
    else if url then UNDERSCORE
    else SLASH
  }

  /** `_base64_value`: the six bits and the alphabet from now on. */
  function Value(alphabet: Alphabet, c: Byte): Option<(Byte, Alphabet)> {
    if 65 <= c <= 90 then Some((c - 65, alphabet))
    else if 97 <= c <= 122 then Some((c - 97 + 26, alphabet))
    else if 48 <= c <= 57 then Some((c - 48 + 52, alphabet))
    else if alphabet != UrlSafe && c == PLUS then Some((62, Standard))
    else if alphabet != UrlSafe && c == SLASH then Some((63, Standard))
    else if alphabet != Standard && c == MINUS then Some((62, UrlSafe))
    else if alphabet != Standard && c == UNDERSCORE then Some((63, UrlSafe))
    else None
  }

  /** An alphabet setting under which text in one of the two alphabets can be read. */
  predicate Reads(alphabet: Alphabet, url: bool) { alphabet == Auto || (alphabet == UrlSafe) == url }

  lemma ValueOfLetter(alphabet: Alphabet, url: bool, x: Byte)
    requires x < 64 && Reads(alphabet, url)
    ensures Letter(url, x) != PAD
    ensures Value(alphabet, Letter(url, x)).Some?
    ensures Value(alphabet, Letter(url, x)).value.0 == x && Reads(Value(alphabet, Letter(url, x)).value.1, url)
  {
  }

  /** The alphabets of RFC 4648, in the order of the values; '=' fills up. */
  lemma LetterOfValue(url: bool, x: Byte)
    requires x < 64
    ensures var n, c := x as int, Letter(url, x) as int;
            && (n < 26 ==> c == 'A' as int + n)
            && (26 <= n < 52 ==> c == 'a' as int + (n - 26))
            && (52 <= n < 62 ==> c == '0' as int + (n - 52))
            && (n == 62 ==> c == (if url then '-' else '+') as int)
            && (n == 63 ==> c == (if url then '_' else '/') as int)
    ensures PAD as int == '=' as int
  {
  }

  /** Only the letters of an alphabet have a value in it. */
  lemma LetterWithValue(url: bool, c: Byte)
    ensures var v := Value(if url then UrlSafe else Standard, c);
            v.Some? ==> v.value.0 < 64 && Letter(url, v.value.0) == c
    ensures Value(Auto, c).Some? <==> Value(Standard, c).Some? || Value(UrlSafe, c).Some?
  {
  }

  // ---------------------------------------------------------------------------------------------
  // Encoding
  // ---------------------------------------------------------------------------------------------

  function First(i0: Byte): Byte { (i0 >> 2) & 0x3f }
  function Second(i0: Byte, i1: Byte): Byte { ((i0 & 0x3) << 4) | ((i1 >> 4) & 0x0f) }
  function Third(i1: Byte, i2: Byte): Byte { ((i1 & 0xf) << 2) | ((i2 >> 6) & 0x03) }
  function Fourth(i2: Byte): Byte { i2 & 0x3f }

  /** The 24 bits of three bytes are those of four values of six bits. */
  lemma SameBits(i0: Byte, i1: Byte, i2: Byte)
    ensures First(i0) < 64 && Second(i0, i1) < 64 && Third(i1, i2) < 64 && Fourth(i2) < 64
    ensures ((First(i0) as bv24) << 18) | ((Second(i0, i1) as bv24) << 12)
            | ((Third(i1, i2) as bv24) << 6) | (Fourth(i2) as bv24)
            == ((i0 as bv24) << 16) | ((i1 as bv24) << 8) | (i2 as bv24)
  {
  }

  /** Three bytes give four characters; the last group is filled up with padding. */
  function Encoded(s: Bytes, url: bool): Bytes {
    if s == [] then [] else Chunk(s, url) + Encoded(s[if |s| < 3 then |s| else 3..], url)
  }

  /** The first four characters. */
  function Chunk(s: Bytes, url: bool): Bytes
    requires s != []
  {
    if |s| == 1 then [Letter(url, First(s[0])), Letter(url, Second(s[0], 0)), PAD, PAD]
    else if |s| == 2 then [Letter(url, First(s[0])), Letter(url, Second(s[0], s[1])), Letter(url, Third(s[1], 0)), PAD]
    else Group(s[0], s[1], s[2], url)
  }

  function Group(i0: Byte, i1: Byte, i2: Byte, url: bool): Bytes {
    [Letter(url, First(i0)), Letter(url, Second(i0, i1)), Letter(url, Third(i1, i2)), Letter(url, Fourth(i2))]
  }

  function RequiredEncodeSize(size: nat): nat { (size / 3 + if size % 3 != 0 then 1 else 0) * 4 }

  function MaxDecodeSize(size: nat): nat { (size / 4 + if size % 4 != 0 then 1 else 0) * 3 }

  lemma SizeStep(n: nat)
    ensures RequiredEncodeSize(0) == 0 && RequiredEncodeSize(1) == 4 && RequiredEncodeSize(2) == 4
    ensures RequiredEncodeSize(n + 3) == RequiredEncodeSize(n) + 4
  {
    assert (n + 3) / 3 == n / 3 + 1 && (n + 3) % 3 == n % 3;
  }

  lemma {:induction false} EncodedSize(s: Bytes, url: bool)
    ensures |Encoded(s, url)| == RequiredEncodeSize(|s|)
  {
    SizeStep(if |s| < 3 then 0 else |s| - 3);
    if |s| < 3 {
      assert s[|s|..] == [];
    } else {
      EncodedSize(s[3..], url);
    }
  }

  /** One round of the loop of `encode`. */
  method EncodeChunk(s: Bytes, start: nat, url: bool) returns (out: Bytes, i: nat)
    requires start < |s|
    ensures i == ChunkEnd(s, start) && out == Chunk(s[start..], url)
  {
    i := start;
    var i0 := s[i];
    i := i + 1;
    out := [Letter(url, First(i0))];
    if i == |s| {
      out := out + [Letter(url, Second(i0, 0))];
      out := out + [PAD];
      out := out + [PAD];
      return;
    }
    var i1 := s[i];
    i := i + 1;
    out := out + [Letter(url, Second(i0, i1))];
    if i == |s| {
      out := out + [Letter(url, Third(i1, 0))];
      out := out + [PAD];
      return;
    }
    var i2 := s[i];
    i := i + 1;
    out := out + [Letter(url, Third(i1, i2))];
    out := out + [Letter(url, Fourth(i2))];
  }

  function ChunkEnd(s: Bytes, start: nat): nat { if |s| - start < 3 then |s| else start + 3 }

  /** What is written and what is still to be written is the whole. */
  predicate Remains(s: Bytes, i: nat, url: bool, out: Bytes, total: Bytes) {
    i <= |s| && out + Encoded(s[i..], url) == total
  }

  lemma RemainsStep(s: Bytes, i: nat, url: bool, out: Bytes, total: Bytes)
    requires i < |s| && Remains(s, i, url, out, total)
    ensures Remains(s, ChunkEnd(s, i), url, out + Chunk(s[i..], url), total)
  {
    var rest, more := s[i..], Encoded(s[ChunkEnd(s, i)..], url);
    assert rest[if |rest| < 3 then |rest| else 3..] == s[ChunkEnd(s, i)..];
    assert out + (Chunk(rest, url) + more) == out + Chunk(rest, url) + more;
  }

  /** `encode` */
  method Encode(s: Bytes, alphabet: Alphabet) returns (out: Bytes)
    ensures out == Encoded(s, alphabet == UrlSafe)
  {
    var url := alphabet == UrlSafe;
    ghost var total := Encoded(s, url);
    out := [];
    var i := 0;
    assert s[0..] == s && out + total == total;
    while i < |s|
      invariant Remains(s, i, url, out, total)
    {
      RemainsStep(s, i, url, out, total);
      var chunk, j := EncodeChunk(s, i, url);
      out := out + chunk;
      i := j;
    }
    assert s[i..] == [] && out + [] == out;
  }

  // ---------------------------------------------------------------------------------------------
  // Decoding
  // ---------------------------------------------------------------------------------------------

  /** The byte from `bits` open bits of the last character and the first ones of the next. */
  function Join(last: Byte, part: Byte, bits: nat): Byte
    requires bits == 2 || bits == 4 || bits == 6
  {
    if bits == 6 then (last << 2) | (part >> 4)
    else if bits == 4 then (last << 4) | (part >> 2)
    else (last << 6) | part
  }

  predicate Bits(bits: int) { bits == 0 || bits == 2 || bits == 4 || bits == 6 }

  datatype Decoding = Decoding(out: Bytes, rest: Bytes)

  /** The characters up to the first padding character, and what is behind that one. */
  function Body(text: Bytes, alphabet: Alphabet, last: Byte, bits: nat): Option<Decoding>
    requires Bits(bits)
  {
    if text == [] then Some(Decoding([], []))
    else if text[0] == PAD then Some(Decoding([], text[1..]))
    else match Value(alphabet, text[0])
      case None => None
      case Some((part, next)) =>
        if bits == 0 then Body(text[1..], next, part, 6)
        else Behind([Join(last, part, bits)], Body(text[1..], next, part, bits - 2))
  }

  function Behind(front: Bytes, d: Option<Decoding>): Option<Decoding> {
    match d
    case None => None
    case Some(d) => Some(Decoding(front + d.out, d.rest))
  }

  lemma BehindBehind(a: Bytes, b: Bytes, d: Option<Decoding>)
    ensures Behind(a, Behind(b, d)) == Behind(a + b, d)
    ensures Behind([], d) == d
  {
    if d.Some? {
      assert a + (b + d.value.out) == a + b + d.value.out;
      assert [] + d.value.out == d.value.out;
    }
  }

  predicate AllPad(rest: Bytes) { forall i :: 0 <= i < |rest| ==> rest[i] == PAD }

  /** The bytes, or nothing for text the codec rejects. */
  function Decoded(text: Bytes, alphabet: Alphabet, behavior: Behavior): Option<Bytes> {
    match Body(text, alphabet, 0, 0)
    case None => None
    case Some(d) => if behavior == Loose || AllPad(d.rest) then Some(d.out) else None
  }

  /** The loop over the characters. `at` is the first unread one. */
  method DecodeBody(text: Bytes, alphabet0: Alphabet) returns (ok: bool, out: Bytes, at: nat)
    ensures at <= |text|
    ensures Body(text, alphabet0, 0, 0) == if ok then Some(Decoding(out, text[at..])) else None
  {
    var alphabet, last, bits := alphabet0, 0 as Byte, 0;
    out, at, ok := [], 0, true;
    BehindBehind([], [], Body(text, alphabet, 0, 0));
    while at < |text|
      invariant at <= |text| && Bits(bits)
      invariant Body(text, alphabet0, 0, 0) == Behind(out, Body(text[at..], alphabet, last, bits))
    {
      var c := text[at];
      assert text[at..][1..] == text[at + 1..];
      at := at + 1;
      if c == PAD {
        assert out + [] == out;
        return;
      }
      var v := Value(alphabet, c);
      if v.None? {
        return false, [], at;
      }
      var part := v.value.0;
      alphabet := v.value.1;
      if bits + 6 >= 8 {
        var byte := Join(last, part, bits);
        BehindBehind(out, [byte], Body(text[at..], alphabet, part, bits - 2));
        out := out + [byte];
        bits := bits - 2;
      } else {
        bits := bits + 6;
      }
      last := part;
    }
    assert text[at..] == [] && out + [] == out;
  }

  /** `decode` */
  method Decode(text: Bytes, alphabet: Alphabet, behavior: Behavior) returns (r: Option<Bytes>)
    ensures r == Decoded(text, alphabet, behavior)
  {
    var ok, out, at := DecodeBody(text, alphabet);
    if !ok {
      return None;
    }
    if behavior != Loose {
      ghost var from := at;
      while at < |text|
        invariant from <= at <= |text| && forall i :: 0 <= i < at - from ==> text[from..][i] == PAD
      {
        var c := text[at];
        at := at + 1;
        if c != PAD {
          assert text[from..][at - 1 - from] != PAD;
          return None;
        }
      }
    }
    return Some(out);
  }

  /** `decode` with the output over the input: what is written never reaches what is still to be read, so the result
      is that of decoding elsewhere. */
  method DecodeInPlace(a: array<Byte>, alphabet0: Alphabet, behavior: Behavior) returns (ok: bool, size: nat)
    modifies a
    ensures ok == Decoded(old(a[..]), alphabet0, behavior).Some?
    ensures ok ==> size <= a.Length && a[..size] == Decoded(old(a[..]), alphabet0, behavior).value
  {
    var at;
    ok, size, at := DecodeBodyInPlace(a, alphabet0);
    if ok && behavior != Loose {
      ok := OnlyPadding(a, at);
    }
  }

  method OnlyPadding(a: array<Byte>, start: nat) returns (ok: bool)
    requires start <= a.Length
    ensures ok == AllPad(a[start..])
  {
    var at := start;
    while at < a.Length
      invariant start <= at <= a.Length && AllPad(a[start..at])
    {
      var c := a[at];
      at := at + 1;
      if c != PAD {
        assert a[start..][at - 1 - start] != PAD;
        return false;
      }
    }
    assert a[start..at] == a[start..];
    return true;
  }

  method DecodeBodyInPlace(a: array<Byte>, alphabet0: Alphabet) returns (ok: bool, size: nat, at: nat)
    modifies a
    ensures size <= at <= a.Length && a[at..] == old(a[at..])
    ensures Body(old(a[..]), alphabet0, 0, 0) == if ok then Some(Decoding(a[..size], a[at..])) else None
  {
    var alphabet, last, bits := alphabet0, 0 as Byte, 0;
    ghost var text := a[..];
    size, at, ok := 0, 0, true;
    BehindBehind([], [], Body(text, alphabet, 0, 0));
    while at < a.Length
      invariant size <= at <= a.Length && Bits(bits) && a[at..] == text[at..]
      invariant Body(text, alphabet0, 0, 0) == Behind(a[..size], Body(text[at..], alphabet, last, bits))
    {
      var c := a[at];
      assert c == text[at..][0] && text[at..][1..] == text[at + 1..];
      at := at + 1;
      if c == PAD {
        assert a[..size] + [] == a[..size];
        return;
      }
      var v := Value(alphabet, c);
      if v.None? {
        return false, size, at;
      }
      var part := v.value.0;
      alphabet := v.value.1;
      if bits + 6 >= 8 {
        var byte := Join(last, part, bits);
        ghost var front := a[..size];
        BehindBehind(front, [byte], Body(text[at..], alphabet, part, bits - 2));
        a[size] := byte;
        size := size + 1;
        assert a[..size] == front + [byte];
        bits := bits - 2;
      } else {
        bits := bits + 6;
      }
      last := part;
    }
    assert text[at..] == [] && a[at..] == [] && a[..size] + [] == a[..size];
  }

  // ---------------------------------------------------------------------------------------------
  // Decoding what was encoded
  // ---------------------------------------------------------------------------------------------

  lemma JoinsBack(i0: Byte, i1: Byte, i2: Byte)
    ensures First(i0) < 64 && Second(i0, i1) < 64 && Third(i1, i2) < 64 && Fourth(i2) < 64
    ensures Join(First(i0), Second(i0, i1), 6) == i0
    ensures Join(Second(i0, i1), Third(i1, i2), 4) == i1
    ensures Join(Third(i1, i2), Fourth(i2), 2) == i2
  {
  }

  /** One character that is a letter. */
  lemma ReadLetter(text: Bytes, alphabet: Alphabet, url: bool, x: Byte, last: Byte, bits: nat) returns (next: Alphabet)
    requires text != [] && text[0] == Letter(url, x) && x < 64 && Reads(alphabet, url) && Bits(bits)
    ensures Reads(next, url)
    ensures Body(text, alphabet, last, bits) ==
            if bits == 0 then Body(text[1..], next, x, 6)
                else Behind([Join(last, x, bits)], Body(text[1..], next, x, bits - 2))
  {
    ValueOfLetter(alphabet, url, x);
    next := Value(alphabet, text[0]).value.1;
  }

  /** A full group gives its three bytes. */
  lemma ReadGroup(i0: Byte, i1: Byte, i2: Byte, more: Bytes, alphabet: Alphabet, url: bool, last: Byte)
    returns (next: Alphabet, last': Byte)
    requires Reads(alphabet, url)
    ensures Reads(next, url)
    ensures Body(Group(i0, i1, i2, url) + more, alphabet, last, 0) == Behind([i0, i1, i2], Body(more, next, last', 0))
  {
    JoinsBack(i0, i1, i2);
    var text := Group(i0, i1, i2, url) + more;
    next := ReadLetter(text, alphabet, url, First(i0), last, 0);
    next := ReadLetter(text[1..], next, url, Second(i0, i1), First(i0), 6);
    next := ReadLetter(text[2..], next, url, Third(i1, i2), Second(i0, i1), 4);
    next := ReadLetter(text[3..], next, url, Fourth(i2), Third(i1, i2), 2);
    last' := Fourth(i2);
    assert text[1..][1..] == text[2..] && text[2..][1..] == text[3..] && text[3..][1..] == more;
    var d := Body(more, next, last', 0);
    BehindBehind([i1], [i2], d);
    BehindBehind([i0], [i1] + [i2], d);
    assert [i0] + ([i1] + [i2]) == [i0, i1, i2];
  }

  lemma ReadTwo(i0: Byte, i1: Byte, alphabet: Alphabet, url: bool, last: Byte)
    requires Reads(alphabet, url)
    ensures Body(Chunk([i0, i1], url), alphabet, last, 0) == Some(Decoding([i0, i1], []))
  {
    JoinsBack(i0, i1, 0);
    var text := Chunk([i0, i1], url);
    var next := ReadLetter(text, alphabet, url, First(i0), last, 0);
    next := ReadLetter(text[1..], next, url, Second(i0, i1), First(i0), 6);
    next := ReadLetter(text[2..], next, url, Third(i1, 0), Second(i0, i1), 4);
    assert text[1..][1..] == text[2..] && text[2..][1..] == [PAD] && [PAD][1..] == [];
    var d := Body([PAD], next, Third(i1, 0), 2);
    assert d == Some(Decoding([], []));
    BehindBehind([i0], [i1], d);
    assert [i0] + [i1] + [] == [i0, i1];
  }

  lemma ReadOne(i0: Byte, alphabet: Alphabet, url: bool, last: Byte)
    requires Reads(alphabet, url)
    ensures Body(Chunk([i0], url), alphabet, last, 0) == Some(Decoding([i0], [PAD]))
  {
    JoinsBack(i0, 0, 0);
    var text := Chunk([i0], url);
    var next := ReadLetter(text, alphabet, url, First(i0), last, 0);
    next := ReadLetter(text[1..], next, url, Second(i0, 0), First(i0), 6);
    assert text[1..][1..] == [PAD, PAD] && [PAD, PAD][1..] == [PAD];
    assert Body([PAD, PAD], next, Second(i0, 0), 4) == Some(Decoding([], [PAD]));
    assert [i0] + [] == [i0];
  }

  lemma ShortIsChunk(s: Bytes, url: bool)
    requires 1 <= |s| <= 2
    ensures Encoded(s, url) == Chunk(s, url)
  {
    assert s[|s|..] == [];
  }

  lemma LongIsGroup(s: Bytes, url: bool)
    requires |s| >= 3
    ensures Encoded(s, url) == Group(s[0], s[1], s[2], url) + Encoded(s[3..], url)
  {
  }

  /** The text decodes to s, with nothing but padding behind. */
  predicate Restores(text: Bytes, alphabet: Alphabet, last: Byte, s: Bytes) {
    match Body(text, alphabet, last, 0)
    case None => false
    case Some(d) => d.out == s && AllPad(d.rest)
  }

  lemma RestoresShort(s: Bytes, alphabet: Alphabet, url: bool, last: Byte)
    requires Reads(alphabet, url) && |s| < 3
    ensures Restores(Encoded(s, url), alphabet, last, s)
  {
    if |s| == 1 {
      assert s == [s[0]];
      ShortIsChunk(s, url);
      ReadOne(s[0], alphabet, url, last);
    } else if |s| == 2 {
      assert s == [s[0], s[1]];
      ShortIsChunk(s, url);
      ReadTwo(s[0], s[1], alphabet, url, last);
    }
  }

  lemma {:induction false} BodyOfEncoded(s: Bytes, alphabet: Alphabet, url: bool, last: Byte)
    requires Reads(alphabet, url)
    ensures Restores(Encoded(s, url), alphabet, last, s)
  {
    if |s| < 3 {
      RestoresShort(s, alphabet, url, last);
    } else {
      var more := Encoded(s[3..], url);
      LongIsGroup(s, url);
      var next, last' := ReadGroup(s[0], s[1], s[2], more, alphabet, url, last);
      BodyOfEncoded(s[3..], next, url, last');
      RestoresBehind([s[0], s[1], s[2]], Encoded(s, url), more, alphabet, next, last, last', s);
    }
  }

  lemma RestoresBehind(front: Bytes, text: Bytes, more: Bytes, alphabet: Alphabet, next: Alphabet, last: Byte,
                       last': Byte, s: Bytes)
    requires |front| <= |s| && front == s[..|front|] && Restores(more, next, last', s[|front|..])
    requires Body(text, alphabet, last, 0) == Behind(front, Body(more, next, last', 0))
    ensures Restores(text, alphabet, last, s)
  {
    assert front + s[|front|..] == s;
  }

  /** Decoding gives back what was encoded, with the right alphabet and with automatic detection. */
  lemma DecodeEncoded(s: Bytes, alphabet: Alphabet, url: bool, behavior: Behavior)
    requires Reads(alphabet, url)
    ensures Decoded(Encoded(s, url), alphabet, behavior) == Some(s)
  {
    BodyOfEncoded(s, alphabet, url, 0);
  }

  // ---------------------------------------------------------------------------------------------
  // Sizes, and which texts are accepted
  // ---------------------------------------------------------------------------------------------

  /** Four characters give at most three bytes. */
  lemma {:induction false} BodySize(text: Bytes, alphabet: Alphabet, last: Byte, bits: nat)
    requires Bits(bits)
    ensures var d := Body(text, alphabet, last, bits); d.Some? ==> 8 * |d.value.out| <= 6 * |text| + bits
  {
    if text != [] && text[0] != PAD && Value(alphabet, text[0]).Some? {
      var v := Value(alphabet, text[0]).value;
      BodySize(text[1..], v.1, v.0, if bits == 0 then 6 else bits - 2);
    }
  }

  lemma DecodedSize(text: Bytes, alphabet: Alphabet, behavior: Behavior)
    ensures var r := Decoded(text, alphabet, behavior); r.Some? ==> |r.value| <= MaxDecodeSize(|text|)
  {
    BodySize(text, alphabet, 0, 0);
  }

  predicate IsLetter(c: Byte, url: bool) { Value(if url then UrlSafe else Standard, c).Some? }

  /** Letters of one alphabet up to the first padding character, and padding only behind it. */
  predicate WellFormed(text: Bytes, url: bool, behavior: Behavior) {
    if text == [] then true
    else if text[0] == PAD then behavior == Loose || AllPad(text[1..])
    else IsLetter(text[0], url) && WellFormed(text[1..], url, behavior)
  }

  predicate Accepts(d: Option<Decoding>, behavior: Behavior) { d.Some? && (behavior == Loose || AllPad(d.value.rest)) }

  lemma {:induction false} AcceptedBody(text: Bytes, alphabet: Alphabet, last: Byte, bits: nat, behavior: Behavior)
    requires Bits(bits)
    ensures Accepts(Body(text, alphabet, last, bits), behavior) <==>
            (alphabet != UrlSafe && WellFormed(text, false, behavior))
                || (alphabet != Standard && WellFormed(text, true, behavior))
  {
    if text != [] && text[0] != PAD {
      var v := Value(alphabet, text[0]);
      if v.Some? {
        AcceptedBody(text[1..], v.value.1, v.value.0, if bits == 0 then 6 else bits - 2, behavior);
      }
    }
  }

  /** Exactly the texts in one alphabet are accepted: the chosen one, or either with automatic detection. */
  lemma AcceptedTexts(text: Bytes, alphabet: Alphabet, behavior: Behavior)
    ensures Decoded(text, alphabet, behavior).Some? <==>
            (alphabet != UrlSafe && WellFormed(text, false, behavior))
                || (alphabet != Standard && WellFormed(text, true, behavior))
  {
    AcceptedBody(text, alphabet, 0, 0, behavior);
  }
}
