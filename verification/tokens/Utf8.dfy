/** UTF-8 text that arrives in pieces: the check, the buffering and the encoder. */
module Utf8 {
  type Byte = bv8
  type Bytes = seq<Byte>

  // ---------------------------------------------------------------------------------------------
  // The check
  // ---------------------------------------------------------------------------------------------

  /** How many bytes a unit has that begins with b; 0 if none begins so. */
  function UnitSize(b: Byte): (n: nat)
    ensures n <= 4
  {
    if b & 0x80 == 0x00 then 1
    else if b & 0xE0 == 0xC0 then 2
    else if b & 0xF0 == 0xE0 then 3
    else if b & 0xF8 == 0xF0 then 4
    else 0
  }

  predicate IsContinuation(b: Byte) { b & 0xC0 == 0x80 }

  /** The ranges of first and further bytes (section 3 of RFC 3629), C0, C1 and F5 to F7 included. */
  lemma ByteRanges(b: Byte)
    ensures UnitSize(b) == 1 <==> b < 0x80
    ensures UnitSize(b) == 2 <==> 0xC0 <= b < 0xE0
    ensures UnitSize(b) == 3 <==> 0xE0 <= b < 0xF0
    ensures UnitSize(b) == 4 <==> 0xF0 <= b < 0xF8
    ensures UnitSize(b) == 0 <==> 0x80 <= b < 0xC0 || 0xF8 <= b
    ensures IsContinuation(b) <==> 0x80 <= b < 0xC0
  {
  }

  predicate Continues(s: Bytes, n: nat) { n <= |s| && forall i :: 1 <= i < n ==> IsContinuation(s[i]) }

  predicate NoNul(s: Bytes) { forall i :: 0 <= i < |s| ==> s[i] != 0 }

  /** Units one behind the other, up to the end or the first zero byte. */
  predicate Valid(s: Bytes) {
    if s == [] || s[0] == 0 then true
    else var n := UnitSize(s[0]); n > 0 && Continues(s, n) && Valid(s[n..])
  }

  /** Byte i of a string that a zero byte ends. */
  function At(s: Bytes, i: nat): Byte { if i < |s| then s[i] else 0 }

  /** `_isValidUtf8` */
  method IsValidUtf8(s: Bytes) returns (ok: bool)
    ensures ok == Valid(s)
  {
    var p := 0;
    assert s[0..] == s;
    while At(s, p) != 0
      invariant p <= |s| && Valid(s[p..]) == Valid(s)
      decreases |s| - p
    {
      var num := 0;
      var c := At(s, p);
      if c & 0x80 == 0x00 {
        num := 1;
      } else if c & 0xE0 == 0xC0 {
        num := 2;
      } else if c & 0xF0 == 0xE0 {
        num := 3;
      } else if c & 0xF8 == 0xF0 {
        num := 4;
      } else {
        return false;
      }
      var good := Continuations(s, p, num);
      if !good {
        return false;
      }
      assert s[p..][num..] == s[p + num..];
      p := p + num;
    }
    return true;
  }

  /** The inner loop: the bytes behind the first one of a unit. */
  method Continuations(s: Bytes, start: nat, num: nat) returns (good: bool)
    requires start < |s| && num > 0
    ensures good == Continues(s[start..], num)
  {
    var p := start + 1;
    for i := 1 to num
      invariant p == start + i <= |s| && forall k :: 1 <= k < i ==> IsContinuation(s[start..][k])
    {
      if At(s, p) & 0xC0 != 0x80 {
        assert p < |s| ==> !IsContinuation(s[start..][i]);
        return false;
      }
      p := p + 1;
    }
    return true;
  }

  // ---------------------------------------------------------------------------------------------
  // Units
  // ---------------------------------------------------------------------------------------------

  predicate IsUnit(u: Bytes) { u != [] && u[0] != 0 && |u| == UnitSize(u[0]) && Continues(u, |u|) }

  function Concat(us: seq<Bytes>): Bytes {
    if us == [] then [] else us[0] + Concat(us[1..])
  }

  predicate AllUnits(us: seq<Bytes>) { forall i :: 0 <= i < |us| ==> IsUnit(us[i]) }

  lemma UnitHasNoNul(u: Bytes)
    requires IsUnit(u)
    ensures NoNul(u)
  {
    assert forall b: Byte :: IsContinuation(b) ==> b != 0;
  }

  lemma UnitThen(u: Bytes, s: Bytes)
    requires IsUnit(u)
    ensures Valid(u + s) == Valid(s)
  {
    var t := u + s;
    assert t[0] == u[0] && t[|u|..] == s;
    assert forall i :: 0 <= i < |u| ==> t[i] == u[i];
  }

  /** Text without zero bytes passes the check exactly if it is a sequence of units. */
  lemma {:induction false} UnitsAreValid(us: seq<Bytes>)
    requires AllUnits(us)
    ensures Valid(Concat(us)) && NoNul(Concat(us))
  {
    if us != [] {
      UnitsAreValid(us[1..]);
      UnitThen(us[0], Concat(us[1..]));
      UnitHasNoNul(us[0]);
    }
  }

  lemma {:induction false} ValidIsUnits(s: Bytes) returns (us: seq<Bytes>)
    requires Valid(s) && NoNul(s)
    ensures AllUnits(us) && Concat(us) == s
  {
    if s == [] {
      us := [];
    } else {
      var n := UnitSize(s[0]);
      var rest := ValidIsUnits(s[n..]);
      us := [s[..n]] + rest;
      assert us[1..] == rest && s[..n] + s[n..] == s;
    }
  }

  /** What follows valid text decides. */
  lemma {:induction false} ValidThen(a: Bytes, b: Bytes)
    requires Valid(a) && NoNul(a)
    ensures Valid(a + b) == Valid(b)
  {
    if a == [] {
      assert a + b == b;
    } else {
      var n := UnitSize(a[0]);
      ValidThen(a[n..], b);
      assert a + b == a[..n] + (a[n..] + b);
      UnitThen(a[..n], a[n..] + b);
    }
  }

  // ---------------------------------------------------------------------------------------------
  // Streaming
  // ---------------------------------------------------------------------------------------------

  function Joined(pieces: seq<Bytes>): Bytes {
    if pieces == [] then [] else Joined(pieces[..|pieces| - 1]) + pieces[|pieces| - 1]
  }

  /** A sampled token: a piece of text, or the end of the generation. */
  datatype Sample = Piece(text: Bytes) | EndOfGeneration

  datatype Output = Text(text: Bytes) | EOG

  class Completion {
    var cache: Bytes       // _cacheResponseTokens
    var response: Bytes    // _response

    constructor ()
      ensures cache == [] && response == []
    {
      cache, response := [], [];
    }

    /** The part of `completionLoop` behind the sampler. */
    method Receive(s: Sample) returns (out: Output)
      modifies this
      ensures s.EndOfGeneration? ==> out == EOG && response == [] && cache == old(cache)
      ensures s.Piece? ==> var all := old(cache) + s.text;
                if Valid(all) then out == Text(all) && cache == [] && response == old(response) + all
                else out == Text([]) && cache == all && response == old(response)
    {
      if s.EndOfGeneration? {
        response := [];
        return EOG;
      }
      cache := cache + s.text;
      var ok := IsValidUtf8(cache);
      if ok {
        response := response + cache;
        var validUtf8Piece := cache;
        cache := [];
        return Text(validUtf8Piece);
      }
      return Text([]);
    }

    /** One piece. */
    method ReceivePiece(pieces: seq<Bytes>, ghost emitted: seq<Bytes>, i: nat) returns (out: Bytes)
      requires i < |pieces| && NoNul(pieces[i]) && Streaming(pieces, emitted, i, cache, response)
      modifies this
      ensures Streaming(pieces, emitted + [out], i + 1, cache, response)
    {
      ghost var held, said := cache, response;
      var r := Receive(Piece(pieces[i]));
      out := r.text;
      StreamingStep(pieces, emitted, i, held, said, out, cache);
    }

    /** A completion from empty buffers: nothing is lost or out of order, only valid text leaves, and all of it has
        left whenever the whole text is valid. */
    method Complete(pieces: seq<Bytes>) returns (emitted: seq<Bytes>)
      requires cache == [] && response == [] && forall i :: 0 <= i < |pieces| ==> NoNul(pieces[i])
      modifies this
      ensures Streaming(pieces, emitted, |pieces|, cache, response)
      ensures Joined(emitted) + cache == Joined(pieces) && response == Joined(emitted)
      ensures cache == [] <==> Valid(Joined(pieces))
    {
      emitted := [];
      StreamStart(pieces);
      for i := 0 to |pieces|
        invariant Streaming(pieces, emitted, i, cache, response)
      {
        var out := ReceivePiece(pieces, emitted, i);
        emitted := emitted + [out];
      }
      StreamEnd(pieces, emitted, cache, response);
    }
  }

  /** After i pieces: what has left is valid, piece by piece; nothing is missing; and all of the first n pieces had left
      after the n-th exactly if they are valid together. */
  predicate Streaming(pieces: seq<Bytes>, emitted: seq<Bytes>, i: nat, cache: Bytes, response: Bytes) {
    && |emitted| == i <= |pieces| && (forall k :: 0 <= k < i ==> Valid(emitted[k]))
    && Streamed(Joined(pieces[..i]), Joined(emitted), cache) && response == Joined(emitted)
    && forall n :: 0 <= n <= i ==> UpTo(pieces, emitted, n)
  }

  lemma StreamingStep(pieces: seq<Bytes>, emitted: seq<Bytes>, i: nat, cache: Bytes, response: Bytes, out: Bytes,
                      held: Bytes)
    requires i < |pieces| && NoNul(pieces[i]) && Streaming(pieces, emitted, i, cache, response)
    requires if Valid(cache + pieces[i]) then out == cache + pieces[i] && held == []
             else out == [] && held == cache + pieces[i]
    ensures Streaming(pieces, emitted + [out], i + 1, held, response + out)
  {
    JoinedStep(pieces, i);
    assert (emitted + [out])[..i] == emitted;
    assert Joined(emitted + [out]) == Joined(emitted) + out;
    StreamStep(Joined(pieces[..i]), Joined(emitted), cache, pieces[i], out, held);
    StillUpTo(pieces, emitted, out, i);
  }

  lemma StreamStart(pieces: seq<Bytes>)
    ensures Streaming(pieces, [], 0, [], [])
  {
    assert pieces[..0] == [];
    var none: seq<Bytes> := [];
    assert none[..0] == none;
  }

  lemma StreamEnd(pieces: seq<Bytes>, emitted: seq<Bytes>, cache: Bytes, response: Bytes)
    requires Streaming(pieces, emitted, |pieces|, cache, response)
    ensures Joined(emitted) + cache == Joined(pieces) && response == Joined(emitted)
    ensures cache == [] <==> Valid(Joined(pieces))
  {
    assert pieces[..|pieces|] == pieces && emitted[..|pieces|] == emitted;
    assert UpTo(pieces, emitted, |pieces|);
    NothingMore(Joined(emitted), cache);
  }

  /** What has left and what is held back make up the whole; what is held back is not valid. */
  predicate Streamed(all: Bytes, emitted: Bytes, cache: Bytes) {
    emitted + cache == all && NoNul(all) && Valid(emitted) && (cache == [] || !Valid(cache))
  }

  lemma StreamStep(all: Bytes, emitted: Bytes, cache: Bytes, piece: Bytes, out: Bytes, held: Bytes)
    requires Streamed(all, emitted, cache) && NoNul(piece)
    requires if Valid(cache + piece) then out == cache + piece && held == [] else out == [] && held == cache + piece
    ensures Streamed(all + piece, emitted + out, held) && Valid(out)
    ensures Valid(all + piece) <==> held == []
    ensures emitted + out == all + piece <==> held == []
  {
    var more := cache + piece;
    assert forall i :: 0 <= i < |emitted| ==> emitted[i] == all[i];
    Reassociate(emitted, cache, piece);
    ValidThen(emitted, more);
    ValidThen(emitted, out);
    Reassociate(emitted, out, held);
    NothingMore(emitted + out, held);
    NothingMore(more, []);
    NothingMore([], more);
  }

  lemma Reassociate(a: Bytes, b: Bytes, c: Bytes)
    ensures a + b + c == a + (b + c)
  {
  }

  lemma NothingMore(a: Bytes, b: Bytes)
    ensures a == a + b <==> b == []
    ensures a == [] ==> a + b == b
    ensures b == [] ==> a + b == a
  {
  }

  /** Later pieces do not change what is known of earlier ones. */
  lemma StillUpTo(pieces: seq<Bytes>, emitted: seq<Bytes>, out: Bytes, i: nat)
    requires i < |pieces| && |emitted| == i && forall n :: 0 <= n <= i ==> UpTo(pieces, emitted, n)
    requires Valid(Joined(pieces[..i + 1])) <==> Joined(emitted + [out]) == Joined(pieces[..i + 1])
    ensures forall n :: 0 <= n <= i + 1 ==> UpTo(pieces, emitted + [out], n)
  {
    forall n | 0 <= n <= i + 1 ensures UpTo(pieces, emitted + [out], n) {
      if n <= i {
        assert UpTo(pieces, emitted, n) && (emitted + [out])[..n] == emitted[..n];
      } else {
        assert (emitted + [out])[..n] == emitted + [out];
      }
    }
  }

  predicate UpTo(pieces: seq<Bytes>, emitted: seq<Bytes>, n: nat)
    requires n <= |pieces| && n <= |emitted|
  {
    Valid(Joined(pieces[..n])) <==> Joined(emitted[..n]) == Joined(pieces[..n])
  }

  lemma JoinedStep(pieces: seq<Bytes>, i: nat)
    requires i < |pieces|
    ensures Joined(pieces[..i + 1]) == Joined(pieces[..i]) + pieces[i]
  {
    assert pieces[..i + 1][..i] == pieces[..i];
  }

  // ---------------------------------------------------------------------------------------------
  // The encoder
  // ---------------------------------------------------------------------------------------------

  type CodePoint = bv32

  /** What `append_utf8` appends (section 3 of RFC 3629); nothing for values that are too large. */
  function Encoding(ch: CodePoint): Bytes {
    if ch <= 0x7F then [ch as Byte]
    else if ch <= 0x7FF then [(0xC0 | ((ch >> 6) & 0x1F)) as Byte, (0x80 | (ch & 0x3F)) as Byte]
    else if ch <= 0xFFFF then
      [(0xE0 | ((ch >> 12) & 0x0F)) as Byte, (0x80 | ((ch >> 6) & 0x3F)) as Byte, (0x80 | (ch & 0x3F)) as Byte]
    else if ch <= 0x10FFFF then
      [(0xF0 | ((ch >> 18) & 0x07)) as Byte, (0x80 | ((ch >> 12) & 0x3F)) as Byte, (0x80 | ((ch >> 6) & 0x3F)) as Byte,
       (0x80 | (ch & 0x3F)) as Byte]
    else []
  }

  class Text32 {
    var out: Bytes

    constructor ()
      ensures out == []
    {
      out := [];
    }

    /** `append_utf8` */
    method AppendUtf8(ch: CodePoint)
      modifies this
      ensures out == old(out) + Encoding(ch)
    {
      if ch <= 0x7F {
        out := out + [ch as Byte];
      } else if ch <= 0x7FF {
        out := out + [(0xC0 | ((ch >> 6) & 0x1F)) as Byte];
        out := out + [(0x80 | (ch & 0x3F)) as Byte];
      } else if ch <= 0xFFFF {
        out := out + [(0xE0 | ((ch >> 12) & 0x0F)) as Byte];
        out := out + [(0x80 | ((ch >> 6) & 0x3F)) as Byte];
        out := out + [(0x80 | (ch & 0x3F)) as Byte];
      } else if ch <= 0x10FFFF {
        out := out + [(0xF0 | ((ch >> 18) & 0x07)) as Byte];
        out := out + [(0x80 | ((ch >> 12) & 0x3F)) as Byte];
        out := out + [(0x80 | ((ch >> 6) & 0x3F)) as Byte];
        out := out + [(0x80 | (ch & 0x3F)) as Byte];
      }
    }
  }

  lemma EncodingIsUnit(ch: CodePoint)
    requires ch != 0
    ensures Encoding(ch) == [] <==> ch > 0x10FFFF
    ensures ch <= 0x10FFFF ==> IsUnit(Encoding(ch))
  {
  }

  function EncodingOfAll(chs: seq<CodePoint>): Bytes {
    if chs == [] then [] else Encoding(chs[0]) + EncodingOfAll(chs[1..])
  }

  /** Every text of non-zero code points passes the check. */
  lemma {:induction false} EncodedTextIsValid(chs: seq<CodePoint>)
    requires forall i :: 0 <= i < |chs| ==> chs[i] != 0
    ensures Valid(EncodingOfAll(chs)) && NoNul(EncodingOfAll(chs))
  {
    if chs != [] {
      var rest := EncodingOfAll(chs[1..]);
      EncodedTextIsValid(chs[1..]);
      EncodingIsUnit(chs[0]);
      if chs[0] <= 0x10FFFF {
        UnitThen(Encoding(chs[0]), rest);
        UnitHasNoNul(Encoding(chs[0]));
      } else {
        assert Encoding(chs[0]) + rest == rest;
      }
    }
  }

  // ---------------------------------------------------------------------------------------------
  // What else passes
  // ---------------------------------------------------------------------------------------------

  function Join2(a: Byte, b: Byte): CodePoint { ((a & 0x1F) as CodePoint << 6) | ((b & 0x3F) as CodePoint) }

  function Join3(a: Byte, b: Byte, c: Byte): CodePoint {
    ((a & 0x0F) as CodePoint << 12) | ((b & 0x3F) as CodePoint << 6) | ((c & 0x3F) as CodePoint)
  }

  function Join4(a: Byte, b: Byte, c: Byte, d: Byte): CodePoint {
    ((a & 0x07) as CodePoint << 18) | ((b & 0x3F) as CodePoint << 12)
    | ((c & 0x3F) as CodePoint << 6) | ((d & 0x3F) as CodePoint)
  }

  /** ch is the code point that the unit u spells out. */
  predicate Spells(u: Bytes, ch: CodePoint) {
    || (|u| == 1 && ch == u[0] as CodePoint)
    || (|u| == 2 && ch == Join2(u[0], u[1]))
    || (|u| == 3 && ch == Join3(u[0], u[1], u[2]))
    || (|u| == 4 && ch == Join4(u[0], u[1], u[2], u[3]))
  }

  /** Not longer than necessary, and not above the last code point. */
  predicate Shortest(u: Bytes)
    requires IsUnit(u)
  {
    || |u| == 1
    || (|u| == 2 && u[0] >= 0xC2)
    || (|u| == 3 && (u[0] != 0xE0 || u[1] >= 0xA0))
    || (|u| == 4 && (u[0] != 0xF0 || u[1] >= 0x90) && (u[0] < 0xF4 || (u[0] == 0xF4 && u[1] < 0x90)))
  }

  lemma Two(ch: CodePoint, a: Byte, b: Byte)
    requires 0x7F < ch <= 0x7FF && a == (0xC0 | ((ch >> 6) & 0x1F)) as Byte && b == (0x80 | (ch & 0x3F)) as Byte
    ensures Join2(a, b) == ch && a >= 0xC2
  {
  }

  lemma Three(ch: CodePoint, a: Byte, b: Byte, c: Byte)
    requires 0x7FF < ch <= 0xFFFF && a == (0xE0 | ((ch >> 12) & 0x0F)) as Byte
    requires b == (0x80 | ((ch >> 6) & 0x3F)) as Byte && c == (0x80 | (ch & 0x3F)) as Byte
    ensures Join3(a, b, c) == ch
    ensures a != 0xE0 || b >= 0xA0
  {
  }

  lemma Four(ch: CodePoint, a: Byte, b: Byte, c: Byte, d: Byte)
    requires 0xFFFF < ch <= 0x10FFFF && a == (0xF0 | ((ch >> 18) & 0x07)) as Byte
             && b == (0x80 | ((ch >> 12) & 0x3F)) as Byte
    requires c == (0x80 | ((ch >> 6) & 0x3F)) as Byte && d == (0x80 | (ch & 0x3F)) as Byte
    ensures Join4(a, b, c, d) == ch
    ensures (a != 0xF0 || b >= 0x90) && (a < 0xF4 || (a == 0xF4 && b < 0x90))
  {
  }

  /** An encoding spells its code point out, in the shortest way. */
  lemma EncodingSpells(ch: CodePoint, u: Bytes)
    requires ch != 0 && ch <= 0x10FFFF && u == Encoding(ch)
    ensures IsUnit(u) && Spells(u, ch) && Shortest(u)
  {
    EncodingIsUnit(ch);
    if ch <= 0x7F {
    } else if ch <= 0x7FF {
      Two(ch, u[0], u[1]);
    } else if ch <= 0xFFFF {
      Three(ch, u[0], u[1], u[2]);
    } else {
      Four(ch, u[0], u[1], u[2], u[3]);
    }
  }

  lemma TwoBack(a: Byte, b: Byte, ch: CodePoint)
    requires a & 0xE0 == 0xC0 && b & 0xC0 == 0x80 && a >= 0xC2
    requires ch == Join2(a, b)
    ensures 0x7F < ch <= 0x7FF && a == (0xC0 | ((ch >> 6) & 0x1F)) as Byte && b == (0x80 | (ch & 0x3F)) as Byte
  {
  }

  lemma ThreeBack(a: Byte, b: Byte, c: Byte, ch: CodePoint)
    requires a & 0xF0 == 0xE0 && b & 0xC0 == 0x80 && c & 0xC0 == 0x80 && (a != 0xE0 || b >= 0xA0)
    requires ch == Join3(a, b, c)
    ensures 0x7FF < ch <= 0xFFFF && a == (0xE0 | ((ch >> 12) & 0x0F)) as Byte
    ensures b == (0x80 | ((ch >> 6) & 0x3F)) as Byte && c == (0x80 | (ch & 0x3F)) as Byte
  {
  }

  lemma FourBack(a: Byte, b: Byte, c: Byte, d: Byte, ch: CodePoint)
    requires a & 0xF8 == 0xF0 && b & 0xC0 == 0x80 && c & 0xC0 == 0x80 && d & 0xC0 == 0x80
    requires (a != 0xF0 || b >= 0x90) && (a < 0xF4 || (a == 0xF4 && b < 0x90))
    requires ch == Join4(a, b, c, d)
    ensures 0xFFFF < ch <= 0x10FFFF && a == (0xF0 | ((ch >> 18) & 0x07)) as Byte
            && b == (0x80 | ((ch >> 12) & 0x3F)) as Byte
    ensures c == (0x80 | ((ch >> 6) & 0x3F)) as Byte && d == (0x80 | (ch & 0x3F)) as Byte
  {
  }

  lemma OneBack(a: Byte, ch: CodePoint)
    requires a != 0 && a & 0x80 == 0 && ch == a as CodePoint
    ensures 0 < ch <= 0x7F && ch as Byte == a
  {
  }

  lemma UnitSizes(b: Byte)
    ensures UnitSize(b) == 1 ==> b & 0x80 == 0
    ensures UnitSize(b) == 2 ==> b & 0xE0 == 0xC0
    ensures UnitSize(b) == 3 ==> b & 0xF0 == 0xE0
    ensures UnitSize(b) == 4 ==> b & 0xF8 == 0xF0
  {
  }

  lemma EncodeSpelled1(u: Bytes, ch: CodePoint)
    requires IsUnit(u) && |u| == 1 && ch == u[0] as CodePoint
    ensures ch != 0 && Encoding(ch) == u
  {
    UnitSizes(u[0]);
    OneBack(u[0], ch);
  }

  lemma Spelled2(u: Bytes, ch: CodePoint)
    requires |u| == 2 && 0x7F < ch <= 0x7FF && u[0] == (0xC0 | ((ch >> 6) & 0x1F)) as Byte
             && u[1] == (0x80 | (ch & 0x3F)) as Byte
    ensures ch != 0 && Encoding(ch) == u
  {
  }

  lemma EncodeSpelled2(u: Bytes) returns (ch: CodePoint)
    requires IsUnit(u) && Shortest(u) && |u| == 2
    ensures ch != 0 && Encoding(ch) == u
  {
    UnitSizes(u[0]);
    ch := Join2(u[0], u[1]);
    TwoBack(u[0], u[1], ch);
    Spelled2(u, ch);
  }

  lemma Spelled3(u: Bytes, ch: CodePoint)
    requires |u| == 3 && 0x7FF < ch <= 0xFFFF && u[0] == (0xE0 | ((ch >> 12) & 0x0F)) as Byte
    requires u[1] == (0x80 | ((ch >> 6) & 0x3F)) as Byte && u[2] == (0x80 | (ch & 0x3F)) as Byte
    ensures ch != 0 && Encoding(ch) == u
  {
  }

  lemma Spelled4(u: Bytes, ch: CodePoint)
    requires |u| == 4 && 0xFFFF < ch <= 0x10FFFF && u[0] == (0xF0 | ((ch >> 18) & 0x07)) as Byte
    requires u[1] == (0x80 | ((ch >> 12) & 0x3F)) as Byte && u[2] == (0x80 | ((ch >> 6) & 0x3F)) as Byte
    requires u[3] == (0x80 | (ch & 0x3F)) as Byte
    ensures ch != 0 && Encoding(ch) == u
  {
  }

  lemma EncodeSpelled3(u: Bytes) returns (ch: CodePoint)
    requires IsUnit(u) && Shortest(u) && |u| == 3
    ensures ch != 0 && Encoding(ch) == u
  {
    UnitSizes(u[0]);
    ch := Join3(u[0], u[1], u[2]);
    ThreeBack(u[0], u[1], u[2], ch);
    Spelled3(u, ch);
  }

  lemma EncodeSpelled4(u: Bytes) returns (ch: CodePoint)
    requires IsUnit(u) && Shortest(u) && |u| == 4
    ensures ch != 0 && Encoding(ch) == u
  {
    UnitSizes(u[0]);
    ch := Join4(u[0], u[1], u[2], u[3]);
    FourBack(u[0], u[1], u[2], u[3], ch);
    Spelled4(u, ch);
  }

  lemma EncodeSpelled(u: Bytes) returns (ch: CodePoint)
    requires IsUnit(u) && Shortest(u)
    ensures ch != 0 && Encoding(ch) == u
  {
    if |u| == 1 {
      ch := u[0] as CodePoint;
      EncodeSpelled1(u, ch);
    } else if |u| == 2 {
      ch := EncodeSpelled2(u);
    } else if |u| == 3 {
      ch := EncodeSpelled3(u);
    } else {
      ch := EncodeSpelled4(u);
    }
  }

  /** A unit that passes the check is the encoding of a code point exactly if it is a shortest one: the check also
      lets overlong units and units for too large values pass. */
  lemma UnitsThatAreEncodings(u: Bytes)
    requires IsUnit(u)
    ensures (exists ch: CodePoint :: ch != 0 && Encoding(ch) == u) <==> Shortest(u)
  {
    if Shortest(u) {
      var _ := EncodeSpelled(u);
    }
    if ch: CodePoint :| ch != 0 && Encoding(ch) == u {
      EncodingIsUnit(ch);
      EncodingSpells(ch, u);
    }
  }

  lemma OverlongPasses()
    ensures Valid([0xC0, 0x80]) && IsUnit([0xC0, 0x80]) && !Shortest([0xC0, 0x80])
  {
    UnitThen([0xC0, 0x80], []);
    assert [0xC0 as Byte, 0x80] + [] == [0xC0, 0x80];
  }
}
