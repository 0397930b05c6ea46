/**
 The counter of inf02-5.c: it reads a byte stream, counts one-byte and longer units, and
 stops with an error at the first byte that does not continue a well-framed unit.
 */
module Utf8Counter {
  type Byte = x: int | 0 <= x < 256

  // ----- units -----

  /** The length announced by a lead byte, or 0. */
  function Size(lead: Byte): nat {
    if lead < 0x80 then 1
    else if 0xC0 <= lead < 0xE0 then 2
    else if 0xE0 <= lead < 0xF0 then 3
    else if 0xF0 <= lead < 0xF8 then 4
    else 0
  }

  predicate Continues(b: Byte) {
    0x80 <= b < 0xC0
  }

  predicate Unit(u: seq<Byte>) {
    u != [] && |u| == Size(u[0]) && forall i | 1 <= i < |u| :: Continues(u[i])
  }

  /** What frames a unit, by leading bits: 0, or as many ones as the unit has bytes, then 10 in each later byte. */
  lemma UnitIs(u: seq<Byte>)
    ensures Unit(u) <==>
      && 1 <= |u| <= 4
      && (|u| == 1 ==> u[0] / 128 == 0)
      && (|u| == 2 ==> u[0] / 32 == 6)
      && (|u| == 3 ==> u[0] / 16 == 14)
      && (|u| == 4 ==> u[0] / 8 == 30)
      && forall i | 1 <= i < |u| :: u[i] / 64 == 2
  {
    forall i | 1 <= i < |u| ensures Continues(u[i]) <==> u[i] / 64 == 2 {
    }
  }

  predicate Units(us: seq<seq<Byte>>) {
    forall u | u in us :: Unit(u)
  }

  function Concat(us: seq<seq<Byte>>): seq<Byte> {
    if us == [] then [] else us[0] + Concat(us[1..])
  }

  predicate StartsWithUnit(s: seq<Byte>) {
    s != [] && Size(s[0]) <= |s| && Unit(s[..Size(s[0])])
  }

  /** The units from the front of a stream as far as they are well framed. */
  function Parse(s: seq<Byte>): seq<seq<Byte>>
    decreases |s|
  {
    if !StartsWithUnit(s) then [] else [s[..Size(s[0])]] + Parse(s[Size(s[0])..])
  }

  /** Units of one byte, and longer ones. */
  function Short(us: seq<seq<Byte>>): nat {
    if us == [] then 0 else (if |us[0]| == 1 then 1 else 0) + Short(us[1..])
  }

  function Long(us: seq<seq<Byte>>): nat {
    if us == [] then 0 else (if |us[0]| == 1 then 0 else 1) + Long(us[1..])
  }

  /** A stream that starts with a unit is parsed unit by unit. */
  lemma ParseUnit(u: seq<Byte>, rest: seq<Byte>)
    requires Unit(u)
    ensures Parse(u + rest) == [u] + Parse(rest)
  {
    assert (u + rest)[..|u|] == u && (u + rest)[|u|..] == rest;
  }

  lemma ConcatFirst(us: seq<seq<Byte>>, rest: seq<Byte>)
    requires us != []
    ensures Concat(us) + rest == us[0] + (Concat(us[1..]) + rest)
  {
  }

  lemma PrefixStep(us: seq<seq<Byte>>, rest: seq<Byte>)
    requires us != [] && Unit(us[0]) && Parse(Concat(us[1..]) + rest) == us[1..] + Parse(rest)
    ensures Parse(Concat(us) + rest) == us + Parse(rest)
  {
    ConcatFirst(us, rest);
    ParseUnit(us[0], Concat(us[1..]) + rest);
    Regroup(us, Parse(rest));
  }

  lemma Regroup<T>(a: seq<T>, b: seq<T>)
    requires a != []
    ensures [a[0]] + (a[1..] + b) == a + b
  {
  }

  lemma {:induction false} ParsePrefix(us: seq<seq<Byte>>, rest: seq<Byte>)
    requires Units(us)
    ensures Parse(Concat(us) + rest) == us + Parse(rest)
  {
    if us == [] {
      assert Concat(us) + rest == rest;
    } else {
      ParsePrefix(us[1..], rest);
      PrefixStep(us, rest);
    }
  }

  lemma {:induction false} ParseSound(s: seq<Byte>)
    ensures Units(Parse(s)) && Concat(Parse(s)) <= s
    decreases |s|
  {
    if StartsWithUnit(s) {
      var n := Size(s[0]);
      ParseSound(s[n..]);
      assert s == s[..n] + s[n..];
    }
  }

  /** Parse is the longest prefix made of units: every other such prefix is a prefix of it. */
  lemma ParseIsLongest(s: seq<Byte>, us: seq<seq<Byte>>)
    requires Units(us) && Concat(us) <= s
    ensures Units(Parse(s)) && Concat(Parse(s)) <= s
    ensures us <= Parse(s)
  {
    ParseSound(s);
    ParsePrefix(us, s[|Concat(us)|..]);
    assert s == Concat(us) + s[|Concat(us)|..];
  }

  // ----- the program -----

  class Counter {
    var rest: seq<Byte>
    var ascii: nat
    var notAscii: nat

    constructor (input: seq<Byte>)
      ensures rest == input && ascii == 0 && notAscii == 0
    {
      rest, ascii, notAscii := input, 0, 0;
    }

    /** getchar; -1 is EOF */
    method GetChar() returns (c: int)
      modifies this`rest
      ensures old(rest) == [] ==> c == -1 && rest == []
      ensures old(rest) != [] ==> c == old(rest)[0] && rest == old(rest)[1..]
    {
      if rest == [] {
        return -1;
      }
      c := rest[0];
      rest := rest[1..];
    }

    /** checker: reads slides + 1 continuation bytes and then counts the unit. */
    method Checker(slides: nat) returns (code: int)
      modifies this`rest, this`notAscii
      ensures code == 0 || code == 1
      ensures code == 0 <==> slides < |old(rest)| && forall i | 0 <= i <= slides :: Continues(old(rest)[i])
      ensures code == 0 ==> rest == old(rest)[slides+1..] && notAscii == old(notAscii) + 1
      ensures code == 1 ==> notAscii == old(notAscii)
    {
      for i := 0 to slides + 1
        invariant i <= |old(rest)| && rest == old(rest)[i..] && notAscii == old(notAscii)
        invariant forall j | 0 <= j < i :: Continues(old(rest)[j])
      {
        var c := GetChar();
        if c / 64 != 2 {
          return 1;
        }
      }
      notAscii := notAscii + 1;
      code := 0;
    }

    /** The main loop; what was counted is printed in every case. */
    method Run() returns (code: int)
      requires ascii == 0 && notAscii == 0
      modifies this
      ensures ascii == Short(Parse(old(rest))) && notAscii == Long(Parse(old(rest)))
      ensures code == if Concat(Parse(old(rest))) == old(rest) then 0 else 1
    {
      ghost var input := rest;
      ghost var units: seq<seq<Byte>> := [];
      var c := GetChar();
      ghost var left := input;
      while c != -1
        invariant Units(units) && input == Concat(units) + left
        invariant if left == [] then c == -1 else c == left[0] && rest == left[1..]
        invariant ascii == Short(units) && notAscii == Long(units)
        decreases |left|
      {
        var slides := -1;
        if c / 128 == 0 {
          ascii := ascii + 1;
        } else if c / 32 == 6 {
          slides := 0;
        } else if c / 16 == 14 {
          slides := 1;
        } else if c / 8 == 30 {
          slides := 2;
        } else {
          Stops(units, left);
          return 1;
        }
        assert Size(left[0]) == slides + 2;
        if slides >= 0 {
          code := Checker(slides);
          if code == 1 {
            NotAUnit(left, slides);
            Stops(units, left);
            return 1;
          }
        }
        Extended(units, left, slides + 2);
        units, left := units + [left[..slides+2]], left[slides+2..];
        c := GetChar();
      }
      Stops(units, left);
      return 0;
    }
  }

  /** When no unit follows, the units so far are all. */
  lemma Stops(us: seq<seq<Byte>>, left: seq<Byte>)
    requires Units(us) && !StartsWithUnit(left)
    ensures Parse(Concat(us) + left) == us
    ensures Concat(us) == Concat(us) + left <==> left == []
  {
    ParsePrefix(us, left);
  }

  lemma NotAUnit(left: seq<Byte>, slides: nat)
    requires left != [] && Size(left[0]) == slides + 2
    requires !(slides < |left[1..]| && forall i | 0 <= i <= slides :: Continues(left[1..][i]))
    ensures !StartsWithUnit(left)
  {
    if StartsWithUnit(left) {
      var u := left[..slides+2];
      forall i | 0 <= i <= slides ensures Continues(left[1..][i]) {
        assert Continues(u[i+1]);
      }
    }
  }

  lemma {:induction false} ConcatAppend(us: seq<seq<Byte>>, u: seq<Byte>)
    ensures Concat(us + [u]) == Concat(us) + u
    ensures Short(us + [u]) == Short(us) + if |u| == 1 then 1 else 0
    ensures Long(us + [u]) == Long(us) + if |u| == 1 then 0 else 1
  {
    if us == [] {
      assert us + [u] == [u];
      assert [u][1..] == [];
    } else {
      assert (us + [u])[1..] == us[1..] + [u];
      ConcatAppend(us[1..], u);
    }
  }

  lemma OneByteUnits(us: seq<seq<Byte>>, n: nat)
    requires |us| == n + 1
    ensures (set i | 0 <= i < |us| && |us[i]| == 1)
         == (set i | 0 <= i < n && |us[..n][i]| == 1) + if |us[n]| == 1 then {n} else {}
  {
  }

  /** Short is the number of units of one byte, and Long that of all others. */
  lemma {:induction false} CountsAre(us: seq<seq<Byte>>)
    ensures Short(us) == |set i | 0 <= i < |us| && |us[i]| == 1|
    ensures Short(us) + Long(us) == |us|
  {
    if us != [] {
      var n := |us| - 1;
      CountsAre(us[..n]);
      OneByteUnits(us, n);
      assert us == us[..n] + [us[n]];
      ConcatAppend(us[..n], us[n]);
    }
  }

  lemma Extended(us: seq<seq<Byte>>, left: seq<Byte>, n: nat)
    requires Units(us) && 0 < n <= |left| && n == Size(left[0])
    requires forall i | 0 <= i < n - 1 :: Continues(left[1..][i])
    ensures Units(us + [left[..n]]) && Concat(us + [left[..n]]) + left[n..] == Concat(us) + left
    ensures Short(us + [left[..n]]) == Short(us) + if n == 1 then 1 else 0
    ensures Long(us + [left[..n]]) == Long(us) + if n == 1 then 0 else 1
  {
    ConcatAppend(us, left[..n]);
    assert left == left[..n] + left[n..];
    forall i | 1 <= i < n ensures Continues(left[..n][i]) {
      assert Continues(left[1..][i-1]);
    }
  }

  // ----- section 3 of RFC 3629 -----

  /** The code points that may be encoded: the surrogates are not among them. */
  type CodePoint = x: int | 0 <= x < 0xD800 || 0xE000 <= x <= 0x10FFFF

  function Encode(cp: CodePoint): (u: seq<Byte>)
    ensures Unit(u) && (|u| == 1 <==> cp < 0x80)
  {
    if cp < 0x80 then [cp]
    else if cp < 0x800 then [0xC0 + cp / 64, 0x80 + cp % 64]
    else if cp < 0x1_0000 then [0xE0 + cp / 4096, 0x80 + cp / 64 % 64, 0x80 + cp % 64]
    else [0xF0 + cp / 0x4_0000, 0x80 + cp / 4096 % 64, 0x80 + cp / 64 % 64, 0x80 + cp % 64]
  }

  /** The six low bits of the last byte, and the rest. */
  lemma LastSix(cp: nat)
    ensures cp == 64 * (cp / 64) + (0x80 + cp % 64) % 64 && (0x80 + cp % 64) / 64 == 2
  {
  }

  lemma Halves(cp: nat)
    ensures cp / 4096 == cp / 64 / 64 && cp / 0x4_0000 == cp / 4096 / 64
  {
  }

  /** The table of section 3 of RFC 3629: the length by the range, and the bits of the code point in order. */
  lemma EncodeIs(cp: CodePoint)
    ensures var u := Encode(cp);
      if cp <= 0x7F then u == [cp]
      else if cp <= 0x7FF then
        && |u| == 2 && u[0] / 32 == 6 && u[1] / 64 == 2
        && cp == (u[0] as int % 32) * 64 + u[1] as int % 64
      else if cp <= 0xFFFF then
        && |u| == 3 && u[0] / 16 == 14 && u[1] / 64 == u[2] / 64 == 2
        && cp == (u[0] as int % 16) * 4096 + (u[1] as int % 64) * 64 + u[2] as int % 64
      else
        && |u| == 4 && u[0] / 8 == 30 && u[1] / 64 == u[2] / 64 == u[3] / 64 == 2
        && cp == (u[0] as int % 8) * 262144 + (u[1] as int % 64) * 4096 + (u[2] as int % 64) * 64 + u[3] as int % 64
  {
    LastSix(cp);
    LastSix(cp / 64);
    LastSix(cp / 4096);
    Halves(cp);
  }

  function EncodeEach(text: seq<CodePoint>): (us: seq<seq<Byte>>)
    ensures |us| == |text| && forall i | 0 <= i < |text| :: us[i] == Encode(text[i])
  {
    seq(|text|, i requires 0 <= i < |text| => Encode(text[i]))
  }

  function AsciiIn(text: seq<CodePoint>): nat {
    if text == [] then 0 else (if text[0] < 0x80 then 1 else 0) + AsciiIn(text[1..])
  }

  lemma {:induction false} ShortIsAscii(text: seq<CodePoint>)
    ensures Short(EncodeEach(text)) == AsciiIn(text)
    ensures Long(EncodeEach(text)) == |text| - AsciiIn(text)
  {
    if text != [] {
      assert EncodeEach(text)[1..] == EncodeEach(text[1..]);
      ShortIsAscii(text[1..]);
    }
  }

  /** An encoding is parsed into the encodings of its code points. */
  lemma EncodedTextIsParsed(text: seq<CodePoint>)
    ensures Parse(Concat(EncodeEach(text))) == EncodeEach(text)
  {
    var us := EncodeEach(text);
    ParsePrefix(us, []);
    assert Concat(us) + [] == Concat(us) && us + Parse([]) == us;
  }

  /** On the encoding of any text the counts are the numbers of ASCII and other code points. */
  lemma EncodedTextIsCounted(text: seq<CodePoint>)
    ensures var s := Concat(EncodeEach(text));
      Concat(Parse(s)) == s && Short(Parse(s)) == AsciiIn(text) && Long(Parse(s)) == |text| - AsciiIn(text)
  {
    EncodedTextIsParsed(text);
    ShortIsAscii(text);
  }

  // ----- which accepted streams are valid -----

  /** Bounds on the first two bytes: the shortest form, no surrogate, nothing above U+10FFFF. */
  predicate Canonical(u: seq<Byte>)
    requires Unit(u)
  {
    && (|u| == 2 ==> u[0] >= 0xC2)
    && (|u| == 3 ==> (u[0] == 0xE0 ==> u[1] >= 0xA0) && (u[0] == 0xED ==> u[1] < 0xA0))
    && (|u| == 4 ==> (u[0] == 0xF0 ==> u[1] >= 0x90) && u[0] <= 0xF4 && (u[0] == 0xF4 ==> u[1] < 0x90))
  }

  lemma EncodeIsCanonical(cp: CodePoint)
    ensures Canonical(Encode(cp))
  {
  }

  lemma DecodeTwo(u: seq<Byte>) returns (cp: CodePoint)
    requires Unit(u) && |u| == 2 && Canonical(u)
    ensures Encode(cp) == u
  {
    assert Continues(u[1]);
    var a: int, b: int := u[0] - 0xC0, u[1] - 0x80;
    cp := 64 * a + b;
  }

  lemma DecodeThree(u: seq<Byte>) returns (cp: CodePoint)
    requires Unit(u) && |u| == 3 && Canonical(u)
    ensures Encode(cp) == u
  {
    assert Continues(u[1]) && Continues(u[2]);
    var a: int, b: int, c: int := u[0] - 0xE0, u[1] - 0x80, u[2] - 0x80;
    cp := 4096 * a + 64 * b + c;
    assert cp / 64 == 64 * a + b;
  }

  lemma DecodeFour(u: seq<Byte>) returns (cp: CodePoint)
    requires Unit(u) && |u| == 4 && Canonical(u)
    ensures Encode(cp) == u
  {
    assert Continues(u[1]) && Continues(u[2]) && Continues(u[3]);
    var a: int, b: int, c: int, d: int := u[0] - 0xF0, u[1] - 0x80, u[2] - 0x80, u[3] - 0x80;
    cp := 0x4_0000 * a + 4096 * b + 64 * c + d;
    assert cp / 64 == 4096 * a + 64 * b + c;
    assert cp / 4096 == 64 * a + b;
  }

  /** Every canonical unit encodes a code point. */
  lemma Decode(u: seq<Byte>) returns (cp: CodePoint)
    requires Unit(u) && Canonical(u)
    ensures Encode(cp) == u
  {
    if |u| == 1 {
      cp := u[0];
    } else if |u| == 2 {
      cp := DecodeTwo(u);
    } else if |u| == 3 {
      cp := DecodeThree(u);
    } else {
      cp := DecodeFour(u);
    }
  }

  lemma {:induction false} DecodeEach(us: seq<seq<Byte>>) returns (text: seq<CodePoint>)
    requires Units(us) && forall u | u in us :: Canonical(u)
    ensures EncodeEach(text) == us
  {
    if us == [] {
      text := [];
    } else {
      var cp := Decode(us[0]);
      var rest := DecodeEach(us[1..]);
      text := [cp] + rest;
      assert us == [us[0]] + us[1..];
    }
  }

  ghost predicate IsUtf8(s: seq<Byte>) {
    exists text: seq<CodePoint> :: Concat(EncodeEach(text)) == s
  }

  ghost predicate Accepted(s: seq<Byte>) {
    Concat(Parse(s)) == s
  }

  /** A stream is the encoding of a text exactly when it is accepted and all its units are canonical. */
  lemma ValidExactly(s: seq<Byte>)
    ensures Units(Parse(s))
    ensures IsUtf8(s) <==> Accepted(s) && forall u | u in Parse(s) :: Canonical(u)
  {
    ParseSound(s);
    if IsUtf8(s) {
      var text: seq<CodePoint> :| Concat(EncodeEach(text)) == s;
      EncodedTextIsParsed(text);
      forall u | u in Parse(s) ensures Canonical(u) {
        var i :| 0 <= i < |text| && EncodeEach(text)[i] == u;
        EncodeIsCanonical(text[i]);
      }
    }
    if Accepted(s) && forall u | u in Parse(s) :: Canonical(u) {
      var text := DecodeEach(Parse(s));
    }
  }

  /** So a single unit is always accepted, and rightly so exactly when it is canonical. */
  lemma UnitIsAccepted(u: seq<Byte>)
    requires Unit(u)
    ensures Accepted(u) && Parse(u) == [u] && (IsUtf8(u) <==> Canonical(u))
  {
    ParseUnit(u, []);
    assert u + [] == u;
    ValidExactly(u);
    assert Concat([u]) == u;
  }

  /** The overlong form of NUL is accepted and counted, although it encodes nothing. */
  lemma OverlongIsAccepted()
    ensures var s: seq<Byte> := [0xC0, 0x80];
      Accepted(s) && Short(Parse(s)) == 0 && Long(Parse(s)) == 1 && !IsUtf8(s)
  {
    var s: seq<Byte> := [0xC0, 0x80];
    UnitIs(s);
    UnitIsAccepted(s);
  }
}
