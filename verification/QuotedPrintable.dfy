/** Quoted-printable encoding of a mail body (mail/mail.go) against the decoding rules of section
    6.7 of RFC 2045. */
module QuotedPrintable {
  import opened Prelude

  type Byte = b: int | 0 <= b < 256 witness 0

  const LF: Byte := 10
  const CR: Byte := 13
  const SPACE: Byte := 32
  const EQUALS: Byte := 61
  const CRLF: seq<Byte> := [CR, LF]
  const SOFT_BREAK: seq<Byte> := [EQUALS, CR, LF]
  const SAFE_MAX := 75

  // ---- The encoding of one byte ----

  function HexDigit(n: nat): Byte
    requires n < 16
  {
    if n < 10 then 48 + n else 55 + n
  }

  function HexValue(b: Byte): Option<nat> {
    if 48 <= b <= 57 then Some(b - 48) else if 65 <= b <= 70 then Some(b - 55) else None
  }

  /** A byte that must not stand for itself: a space only at the end of its line. */
  predicate MustEscape(s: seq<Byte>, i: nat)
    requires i < |s|
  {
    s[i] == EQUALS || s[i] < 32 || s[i] > 126 || (s[i] == SPACE && (i + 1 == |s| || s[i + 1] == LF))
  }

  function TokenAt(s: seq<Byte>, i: nat): (t: seq<Byte>)
    requires i < |s|
    ensures |t| == 1 || |t| == 3
  {
    if MustEscape(s, i) then [EQUALS, HexDigit(s[i] / 16), HexDigit(s[i] % 16)] else [s[i]]
  }

  /** The output from position i on, when lineLen bytes of the line are already out. */
  function Encoded(s: seq<Byte>, i: nat, lineLen: nat): seq<Byte>
    requires i <= |s|
    decreases |s| - i
  {
    if i == |s| then []
    else if s[i] == LF then CRLF + Encoded(s, i + 1, 0)
    else if s[i] == CR then Encoded(s, i + 1, lineLen)
    else
      var token := TokenAt(s, i);
      if lineLen + |token| > SAFE_MAX then SOFT_BREAK + (token + Encoded(s, i + 1, |token|))
      else token + Encoded(s, i + 1, lineLen + |token|)
  }

  /** The encoder: it writes to a buffer and starts a new line before the line gets too long. */
  method Encode(s: seq<Byte>) returns (buf: seq<Byte>)
    ensures buf == Encoded(s, 0, 0)
  {
    buf := [];
    var lineLen: nat := 0;
    var i := 0;
    assert [] + Encoded(s, 0, 0) == Encoded(s, 0, 0);
    while i < |s|
      invariant 0 <= i <= |s|
      invariant buf + Encoded(s, i, lineLen) == Encoded(s, 0, 0)
    {
      ghost var before := buf;
      var c := s[i];
      if c == LF {
        Regroup(buf, CRLF, Encoded(s, i + 1, 0));
        buf := buf + CRLF;
        lineLen := 0;
      } else if c != CR {
        var token := TokenAt(s, i);
        if lineLen + |token| > SAFE_MAX {
          Regroup(buf, SOFT_BREAK, token + Encoded(s, i + 1, |token|));
          buf := buf + SOFT_BREAK;
          lineLen := 0;
        }
        Regroup(buf, token, Encoded(s, i + 1, lineLen + |token|));
        buf := buf + token;
        lineLen := lineLen + |token|;
      }
      i := i + 1;
    }
    assert buf + [] == buf;
  }

  lemma Regroup(a: seq<Byte>, b: seq<Byte>, c: seq<Byte>)
    ensures a + (b + c) == (a + b) + c
  {
  }

  // ---- Decoding ----

  /** "=XY" is a byte, a soft break is nothing, any other byte stands for itself. */
  function Decoded(out: seq<Byte>): Option<seq<Byte>> {
    if out == [] then Some([])
    else if out[0] != EQUALS then Prefixed(out[0], Decoded(out[1..]))
    else if |out| < 3 then None
    else if out[1] == CR && out[2] == LF then Decoded(out[3..])
    else
      var hi, lo := HexValue(out[1]), HexValue(out[2]);
      if hi.None? || lo.None? then None else Prefixed(16 * hi.value + lo.value, Decoded(out[3..]))
  }

  function Prefixed(b: Byte, rest: Option<seq<Byte>>): Option<seq<Byte>> {
    match rest case None => None case Some(r) => Some([b] + r)
  }

  /** The text that is sent: carriage returns dropped, newlines as CRLF. */
  function Canonical(s: seq<Byte>, i: nat): seq<Byte>
    requires i <= |s|
    decreases |s| - i
  {
    if i == |s| then []
    else if s[i] == LF then CRLF + Canonical(s, i + 1)
    else if s[i] == CR then Canonical(s, i + 1)
    else [s[i]] + Canonical(s, i + 1)
  }

  lemma HexRoundTrip(n: nat)
    requires n < 16
    ensures HexValue(HexDigit(n)) == Some(n) && HexDigit(n) != CR
  {
  }

  lemma DecodedToken(s: seq<Byte>, i: nat, rest: seq<Byte>)
    requires i < |s|
    ensures Decoded(TokenAt(s, i) + rest) == Prefixed(s[i], Decoded(rest))
  {
    var t := TokenAt(s, i);
    if MustEscape(s, i) {
      HexRoundTrip(s[i] / 16);
      HexRoundTrip(s[i] % 16);
      assert (t + rest)[3..] == rest;
      assert 16 * (s[i] / 16) + s[i] % 16 == s[i];
    } else {
      assert (t + rest)[1..] == rest;
    }
  }

  lemma DecodedSoftBreak(rest: seq<Byte>)
    ensures Decoded(SOFT_BREAK + rest) == Decoded(rest)
  {
    assert (SOFT_BREAK + rest)[3..] == rest;
  }

  lemma DecodedLineBreak(rest: seq<Byte>)
    ensures Decoded(CRLF + rest) == match Decoded(rest) case None => None case Some(r) => Some(CRLF + r)
  {
    assert (CRLF + rest)[1..] == [LF] + rest;
    assert ([LF] + rest)[1..] == rest;
    assert Decoded([LF] + rest) == Prefixed(LF, Decoded(rest));
    if Decoded(rest).Some? {
      assert [CR] + ([LF] + Decoded(rest).value) == CRLF + Decoded(rest).value;
    }
  }

  /** Decoding gives back the text, line breaks made canonical. */
  lemma {:induction false} RoundTrip(s: seq<Byte>, i: nat, lineLen: nat)
    requires i <= |s|
    ensures Decoded(Encoded(s, i, lineLen)) == Some(Canonical(s, i))
    decreases |s| - i
  {
    if i < |s| {
      if s[i] == LF {
        RoundTrip(s, i + 1, 0);
        DecodedLineBreak(Encoded(s, i + 1, 0));
      } else if s[i] == CR {
        RoundTrip(s, i + 1, lineLen);
      } else {
        var token := TokenAt(s, i);
        var col := if lineLen + |token| > SAFE_MAX then |token| else lineLen + |token|;
        RoundTrip(s, i + 1, col);
        DecodedToken(s, i, Encoded(s, i + 1, col));
        DecodedSoftBreak(token + Encoded(s, i + 1, col));
      }
    }
  }

  // ---- Line lengths ----

  /** No line is longer than 76 bytes, when col bytes of the first one are already out. */
  predicate LinesFit(out: seq<Byte>, col: nat) {
    if out == [] then col <= 76
    else if |out| >= 2 && out[0] == CR && out[1] == LF then col <= 76 && LinesFit(out[2..], 0)
    else LinesFit(out[1..], col + 1)
  }

  lemma TokenFits(s: seq<Byte>, i: nat, rest: seq<Byte>, col: nat)
    requires i < |s| && s[i] != CR && LinesFit(rest, col + |TokenAt(s, i)|)
    ensures LinesFit(TokenAt(s, i) + rest, col)
  {
    var t := TokenAt(s, i);
    assert t[0] != CR;
    if |t| == 1 {
      assert (t + rest)[1..] == rest;
    } else {
      HexRoundTrip(s[i] / 16);
      HexRoundTrip(s[i] % 16);
      assert (t + rest)[1..][1..][1..] == rest;
      assert LinesFit((t + rest)[1..][1..], col + 2);
      assert LinesFit((t + rest)[1..], col + 1);
    }
  }

  lemma BreakFits(rest: seq<Byte>, col: nat)
    requires col <= 76 && LinesFit(rest, 0)
    ensures LinesFit(CRLF + rest, col)
    ensures col <= 75 ==> LinesFit(SOFT_BREAK + rest, col)
  {
    assert (CRLF + rest)[2..] == rest;
    assert (SOFT_BREAK + rest)[1..] == CRLF + rest;
  }

  lemma {:induction false} EveryLineFits(s: seq<Byte>, i: nat, lineLen: nat)
    requires i <= |s| && lineLen <= SAFE_MAX
    ensures LinesFit(Encoded(s, i, lineLen), lineLen)
    decreases |s| - i
  {
    if i < |s| {
      if s[i] == LF {
        EveryLineFits(s, i + 1, 0);
        BreakFits(Encoded(s, i + 1, 0), lineLen);
      } else if s[i] == CR {
        EveryLineFits(s, i + 1, lineLen);
      } else {
        var token := TokenAt(s, i);
        if lineLen + |token| > SAFE_MAX {
          EveryLineFits(s, i + 1, |token|);
          TokenFits(s, i, Encoded(s, i + 1, |token|), 0);
          BreakFits(token + Encoded(s, i + 1, |token|), lineLen);
        } else {
          EveryLineFits(s, i + 1, lineLen + |token|);
          TokenFits(s, i, Encoded(s, i + 1, lineLen + |token|), lineLen);
        }
      }
    }
  }

  // ---- Spaces at line ends, which the RFC tells a decoder to delete ----

  predicate AtLineEnd(rest: seq<Byte>) {
    rest == [] || rest[0] == CR
  }

  /** The output without the raw spaces that end its lines. */
  function Stripped(out: seq<Byte>): seq<Byte> {
    if out == [] then []
    else
      var rest := Stripped(out[1..]);
      if out[0] == SPACE && AtLineEnd(rest) then rest else [out[0]] + rest
  }

  /** What is left of the text once such spaces are lost. */
  function Surviving(s: seq<Byte>, i: nat, lineLen: nat): seq<Byte>
    requires i <= |s|
    decreases |s| - i
  {
    if i == |s| then []
    else if s[i] == LF then CRLF + Surviving(s, i + 1, 0)
    else if s[i] == CR then Surviving(s, i + 1, lineLen)
    else
      var col := ColumnAfter(s, i, lineLen);
      var rest := Surviving(s, i + 1, col);
      if Lost(s, i, col) then rest else [s[i]] + rest
  }

  function ColumnAfter(s: seq<Byte>, i: nat, lineLen: nat): nat
    requires i < |s|
  {
    var n := |TokenAt(s, i)|;
    if lineLen + n > SAFE_MAX then n else lineLen + n
  }

  /** A space the encoder took for an inner one, but which ends its line. */
  predicate Lost(s: seq<Byte>, i: nat, col: nat)
    requires i < |s|
  {
    s[i] == SPACE && !MustEscape(s, i) && AtLineEnd(Stripped(Encoded(s, i + 1, col)))
  }

  /** Nothing but carriage returns is left of the line. */
  predicate EndsAfterReturns(s: seq<Byte>, i: nat)
    requires i <= |s|
    decreases |s| - i
  {
    i == |s| || s[i] == LF || (s[i] == CR && EndsAfterReturns(s, i + 1))
  }

  /** A space that a carriage return hides from the encoder's look-ahead. */
  predicate Dangling(s: seq<Byte>, i: nat)
    requires i < |s|
  {
    s[i] == SPACE && i + 1 < |s| && s[i + 1] == CR && EndsAfterReturns(s, i + 1)
  }

  predicate DanglesFrom(s: seq<Byte>, i: nat)
    requires i <= |s|
    decreases |s| - i
  {
    i < |s| && (Dangling(s, i) || DanglesFrom(s, i + 1))
  }

  lemma StrippedCons(b: Byte, out: seq<Byte>)
    ensures Stripped([b] + out) == if b == SPACE && AtLineEnd(Stripped(out)) then Stripped(out) else [b] + Stripped(out)
  {
    assert ([b] + out)[1..] == out;
  }

  lemma StrippedTwo(a: Byte, b: Byte, out: seq<Byte>)
    requires a != SPACE && b != SPACE
    ensures Stripped([a, b] + out) == [a, b] + Stripped(out)
  {
    StrippedCons(b, out);
    StrippedCons(a, [b] + out);
    assert [a, b] + out == [a] + ([b] + out);
  }

  lemma StrippedThree(a: Byte, b: Byte, c: Byte, out: seq<Byte>)
    requires a != SPACE && b != SPACE && c != SPACE
    ensures Stripped([a, b, c] + out) == [a, b, c] + Stripped(out)
  {
    StrippedTwo(b, c, out);
    StrippedCons(a, [b, c] + out);
    assert [a, b, c] + out == [a] + ([b, c] + out);
  }

  lemma StrippedBreaks(out: seq<Byte>)
    ensures Stripped(CRLF + out) == CRLF + Stripped(out)
    ensures Stripped(SOFT_BREAK + out) == SOFT_BREAK + Stripped(out)
  {
    StrippedTwo(CR, LF, out);
    StrippedThree(EQUALS, CR, LF, out);
  }

  lemma StrippedEscape(s: seq<Byte>, i: nat, out: seq<Byte>)
    requires i < |s| && MustEscape(s, i)
    ensures Stripped(TokenAt(s, i) + out) == TokenAt(s, i) + Stripped(out)
  {
    StrippedThree(EQUALS, HexDigit(s[i] / 16), HexDigit(s[i] % 16), out);
  }

  lemma EncodedLiteral(s: seq<Byte>, i: nat, lineLen: nat)
    requires i < |s| && s[i] != LF && s[i] != CR
    ensures var rest := TokenAt(s, i) + Encoded(s, i + 1, ColumnAfter(s, i, lineLen));
            Encoded(s, i, lineLen) == if lineLen + |TokenAt(s, i)| > SAFE_MAX then SOFT_BREAK + rest else rest
  {
  }

  lemma StrippedToken(s: seq<Byte>, i: nat, col: nat)
    requires i < |s| && s[i] != CR
    ensures var rest := Stripped(Encoded(s, i + 1, col));
            Stripped(TokenAt(s, i) + Encoded(s, i + 1, col)) == if Lost(s, i, col) then rest else TokenAt(s, i) + rest
  {
    if MustEscape(s, i) {
      StrippedEscape(s, i, Encoded(s, i + 1, col));
    } else {
      StrippedCons(s[i], Encoded(s, i + 1, col));
    }
  }

  /** A decoder that deletes the spaces at line ends, as section 6.7 of RFC 2045 requires, gets
      exactly the surviving text. */
  lemma {:induction false} StrictDecoding(s: seq<Byte>, i: nat, lineLen: nat)
    requires i <= |s|
    ensures Decoded(Stripped(Encoded(s, i, lineLen))) == Some(Surviving(s, i, lineLen))
    decreases |s| - i
  {
    if i < |s| {
      if s[i] == LF {
        StrictDecoding(s, i + 1, 0);
        StrippedBreaks(Encoded(s, i + 1, 0));
        DecodedLineBreak(Stripped(Encoded(s, i + 1, 0)));
      } else if s[i] == CR {
        StrictDecoding(s, i + 1, lineLen);
      } else {
        var col := ColumnAfter(s, i, lineLen);
        StrictDecoding(s, i + 1, col);
        EncodedLiteral(s, i, lineLen);
        StrippedToken(s, i, col);
        var out := TokenAt(s, i) + Encoded(s, i + 1, col);
        StrippedBreaks(out);
        DecodedSoftBreak(Stripped(out));
        DecodedToken(s, i, Stripped(Encoded(s, i + 1, col)));
      }
    }
  }

  lemma {:induction false} LineEndsAfterReturns(s: seq<Byte>, i: nat, lineLen: nat)
    requires i <= |s| && EndsAfterReturns(s, i)
    ensures AtLineEnd(Encoded(s, i, lineLen)) && AtLineEnd(Stripped(Encoded(s, i, lineLen)))
    decreases |s| - i
  {
    if i < |s| && s[i] == CR {
      LineEndsAfterReturns(s, i + 1, lineLen);
    } else if i < |s| {
      StrippedBreaks(Encoded(s, i + 1, 0));
    }
  }

  lemma {:induction false} LineEndsOnlyThere(s: seq<Byte>, i: nat, lineLen: nat)
    requires i <= |s| && AtLineEnd(Stripped(Encoded(s, i, lineLen)))
    ensures EndsAfterReturns(s, i) || DanglesFrom(s, i)
    decreases |s| - i
  {
    if i < |s| && s[i] != LF {
      if s[i] == CR {
        LineEndsOnlyThere(s, i + 1, lineLen);
      } else {
        var col := ColumnAfter(s, i, lineLen);
        EncodedLiteral(s, i, lineLen);
        StrippedToken(s, i, col);
        StrippedBreaks(TokenAt(s, i) + Encoded(s, i + 1, col));
        assert Lost(s, i, col);
        LineEndsOnlyThere(s, i + 1, col);
      }
    }
  }

  lemma {:induction false} SurvivingIsShorter(s: seq<Byte>, i: nat, lineLen: nat)
    requires i <= |s|
    ensures |Surviving(s, i, lineLen)| <= |Canonical(s, i)|
    decreases |s| - i
  {
    if i < |s| {
      SurvivingIsShorter(s, i + 1, if s[i] == LF then 0 else if s[i] == CR then lineLen else ColumnAfter(s, i, lineLen));
    }
  }

  /** A space is lost exactly when it dangles, or another one after it on its line does. */
  lemma LostMeansDangling(s: seq<Byte>, i: nat, col: nat)
    requires i < |s|
    ensures Lost(s, i, col) ==> DanglesFrom(s, i)
    ensures Dangling(s, i) ==> Lost(s, i, col)
  {
    if Lost(s, i, col) {
      LineEndsOnlyThere(s, i + 1, col);
    }
    if Dangling(s, i) {
      LineEndsAfterReturns(s, i + 1, col);
    }
  }

  lemma {:induction false} SurvivesUnlessDangling(s: seq<Byte>, i: nat, lineLen: nat)
    requires i <= |s|
    ensures Surviving(s, i, lineLen) == Canonical(s, i) <==> !DanglesFrom(s, i)
    decreases |s| - i
  {
    if i < |s| {
      if s[i] == LF {
        SurvivesUnlessDangling(s, i + 1, 0);
        var a, b := Surviving(s, i + 1, 0), Canonical(s, i + 1);
        assert (CRLF + a)[2..] == a && (CRLF + b)[2..] == b;
      } else if s[i] == CR {
        SurvivesUnlessDangling(s, i + 1, lineLen);
      } else {
        var col := ColumnAfter(s, i, lineLen);
        var a, b := Surviving(s, i + 1, col), Canonical(s, i + 1);
        SurvivesUnlessDangling(s, i + 1, col);
        SurvivingIsShorter(s, i + 1, col);
        LostMeansDangling(s, i, col);
        assert ([s[i]] + a)[1..] == a && ([s[i]] + b)[1..] == b;
      }
    }
  }

  /** A decoder that follows the RFC recovers the text exactly when no line of it ends in a space
      followed by one or more carriage returns: that space is left bare. */
  lemma StrictRoundTripUnlessDangling(s: seq<Byte>)
    ensures Decoded(Stripped(Encoded(s, 0, 0))) == Some(Canonical(s, 0)) <==> !DanglesFrom(s, 0)
  {
    StrictDecoding(s, 0, 0);
    SurvivesUnlessDangling(s, 0, 0);
  }

  /** Without such a space no line of the output ends in a bare space. */
  lemma {:induction false} NoBareSpaceAtLineEnds(s: seq<Byte>, i: nat, lineLen: nat)
    requires i <= |s| && !DanglesFrom(s, i)
    ensures Stripped(Encoded(s, i, lineLen)) == Encoded(s, i, lineLen)
    decreases |s| - i
  {
    if i < |s| {
      if s[i] == LF {
        NoBareSpaceAtLineEnds(s, i + 1, 0);
        StrippedBreaks(Encoded(s, i + 1, 0));
      } else if s[i] == CR {
        NoBareSpaceAtLineEnds(s, i + 1, lineLen);
      } else {
        var col := ColumnAfter(s, i, lineLen);
        NoBareSpaceAtLineEnds(s, i + 1, col);
        EncodedLiteral(s, i, lineLen);
        LostMeansDangling(s, i, col);
        StrippedToken(s, i, col);
        StrippedBreaks(TokenAt(s, i) + Encoded(s, i + 1, col));
      }
    }
  }

  lemma {:induction false} NothingDanglesWithoutReturns(s: seq<Byte>, i: nat)
    requires i <= |s| && CR !in s
    ensures !DanglesFrom(s, i)
    decreases |s| - i
  {
    if i < |s| {
      NothingDanglesWithoutReturns(s, i + 1);
    }
  }

  /** "a" and a space before a CRLF: the encoder leaves the space bare. */
  lemma SpaceBeforeCrlfDangles()
    ensures var s: seq<Byte> := [97, SPACE, CR, LF];
            DanglesFrom(s, 0) && Encoded(s, 0, 0) == [97, SPACE, CR, LF]
  {
    var s: seq<Byte> := [97, SPACE, CR, LF];
    assert EndsAfterReturns(s, 3);
    assert EndsAfterReturns(s, 2);
    assert Dangling(s, 1);
    assert DanglesFrom(s, 1);
    assert Encoded(s, 4, 0) == [];
    assert Encoded(s, 3, 2) == CRLF + Encoded(s, 4, 0) == CRLF;
    assert Encoded(s, 2, 2) == CRLF;
    assert Encoded(s, 1, 1) == [SPACE] + Encoded(s, 2, 2);
    assert Encoded(s, 0, 0) == [97] + Encoded(s, 1, 1);
  }
}
