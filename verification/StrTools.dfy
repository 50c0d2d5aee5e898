/** Stripping and splitting of text (src/utils/str_tools.cpp). */
module StrTools {

  predicate IsBlank(c: char) { c in {'\n', '\r', '\t', ' '} }

  predicate AllBlank(s: string) { forall i | 0 <= i < |s| :: IsBlank(s[i]) }

  // Between two blank ends, a text that starts and ends with other characters, or nothing.
  ghost predicate StripsTo(s: string, r: string, at: nat) {
    && at + |r| <= |s| && s[at..at + |r|] == r
    && AllBlank(s[..at]) && AllBlank(s[at + |r|..])
    && (r != "" ==> !IsBlank(r[0]) && !IsBlank(r[|r| - 1]))
  }

  /** The stripped text is unique. */
  lemma StripsToUnique(s: string, r: string, at: nat, r': string, at': nat)
    requires StripsTo(s, r, at) && StripsTo(s, r', at')
    ensures r == r'
  {
    if r != "" || r' != "" {
      assert r != "" ==> s[at] == r[0] && s[at + |r| - 1] == r[|r| - 1];
      assert r' != "" ==> s[at'] == r'[0] && s[at' + |r'| - 1] == r'[|r'| - 1];
      assert forall i | 0 <= i < at || at + |r| <= i < |s| :: IsBlank(s[i]) by { BlankEnds(s, at, at + |r|); }
      assert forall i | 0 <= i < at' || at' + |r'| <= i < |s| :: IsBlank(s[i]) by { BlankEnds(s, at', at' + |r'|); }
    }
  }

  lemma BlankEnds(s: string, i: nat, j: nat)
    requires i <= j <= |s| && AllBlank(s[..i]) && AllBlank(s[j..])
    ensures forall k | 0 <= k < i || j <= k < |s| :: IsBlank(s[k])
  {
    forall k | 0 <= k < i || j <= k < |s| ensures IsBlank(s[k]) {
      assert k < i ==> s[k] == s[..i][k];
      assert j <= k ==> s[k] == s[j..][k - j];
    }
  }

  /** Four characters are stripped and no others. */
  lemma BlankCharacters(c: char)
    ensures Stripped([c]) == (if c == ' ' || c == '\t' || c == '\n' || c == '\r' then "" else [c])
  {
    assert [c][1..] == "";
  }

  function Stripped(s: string): string {
    if s == "" then ""
    else if IsBlank(s[0]) then Stripped(s[1..])
    else if IsBlank(s[|s| - 1]) then Stripped(s[..|s| - 1])
    else s
  }

  lemma StripHead(s: string, r: string, at: nat)
    requires s != "" && IsBlank(s[0]) && StripsTo(s[1..], r, at)
    ensures StripsTo(s, r, at + 1)
  {
    BlankEnds(s[1..], at, at + |r|);
    assert s[at + 1..at + 1 + |r|] == s[1..][at..at + |r|];
    assert s[at + 1 + |r|..] == s[1..][at + |r|..];
  }

  lemma StripTail(s: string, r: string, at: nat)
    requires s != "" && IsBlank(s[|s| - 1]) && StripsTo(s[..|s| - 1], r, at)
    ensures StripsTo(s, r, at)
  {
    var t := s[..|s| - 1];
    BlankEnds(t, at, at + |r|);
    assert s[at..at + |r|] == t[at..at + |r|];
    forall k | 0 <= k < at || at + |r| <= k < |s| ensures IsBlank(s[k]) {
      assert k < |t| ==> s[k] == t[k];
    }
    BlankOutside(s, at, at + |r|);
  }

  lemma BlankOutside(s: string, i: nat, j: nat)
    requires i <= j <= |s| && forall k | 0 <= k < i || j <= k < |s| :: IsBlank(s[k])
    ensures AllBlank(s[..i]) && AllBlank(s[j..])
  {
  }

  lemma {:induction false} StrippedStrips(s: string) returns (at: nat)
    ensures StripsTo(s, Stripped(s), at)
    decreases |s|
  {
    if s == "" {
      at := 0;
    } else if IsBlank(s[0]) {
      at := StrippedStrips(s[1..]);
      StripHead(s, Stripped(s[1..]), at);
      at := at + 1;
    } else if IsBlank(s[|s| - 1]) {
      at := StrippedStrips(s[..|s| - 1]);
      StripTail(s, Stripped(s[..|s| - 1]), at);
    } else {
      at := 0;
      assert s[0..|s|] == s && s[|s|..] == "";
    }
  }

  method Strip(ret: string) returns (str: string, ghost at: nat)
    ensures str == Stripped(ret) && StripsTo(ret, str, at)
  {
    var beg, end := 0, 0;
    var i := 0;
    while i < |ret|
      invariant i <= |ret| && beg == 0 && forall k | 0 <= k < i :: IsBlank(ret[k])
    {
      if !IsBlank(ret[i]) {
        beg := i;
        break;
      }
      i := i + 1;
    }
    var j := |ret|;
    while j > 0
      invariant 0 <= j <= |ret| && end == 0 && (i < |ret| ==> i < j) && forall k | j <= k < |ret| :: IsBlank(ret[k])
    {
      j := j - 1;
      if !IsBlank(ret[j]) {
        end := j + 1;
        break;
      }
    }
    str, at := ret[beg..end], beg;
    ghost var at' := StrippedStrips(ret);
    StripsToUnique(ret, str, at, Stripped(ret), at');
  }

  // The non-empty pieces between delimiters; piece is the part of the current one already read.
  function Pieces(s: string, delim: char, piece: string): seq<string> {
    if s == "" then if piece == "" then [] else [piece]
    else if s[0] == delim then (if piece == "" then [] else [piece]) + Pieces(s[1..], delim, "")
    else Pieces(s[1..], delim, piece + [s[0]])
  }

  method Split(s: string, delim: char) returns (ret: seq<string>)
    ensures ret == Pieces(s, delim, "")
  {
    ret := [];
    var subStr := "";
    for i := 0 to |s|
      invariant ret + Pieces(s[i..], delim, subStr) == Pieces(s, delim, "")
    {
      assert s[i..][1..] == s[i + 1..];
      if s[i] == delim {
        if subStr != "" {
          ret := ret + [subStr];
          subStr := "";
        }
      } else {
        subStr := subStr + [s[i]];
      }
    }
    if subStr != "" {
      ret := ret + [subStr];
    }
  }

  // Nothing of the text but delimiters is lost, and no piece is empty or holds one.
  ghost function Joined(pieces: seq<string>): string { if pieces == [] then "" else pieces[0] + Joined(pieces[1..]) }

  ghost function Without(s: string, delim: char): string {
    if s == "" then "" else (if s[0] == delim then "" else [s[0]]) + Without(s[1..], delim)
  }

  lemma {:induction false} PiecesKeepText(s: string, delim: char, piece: string)
    requires delim !in piece
    ensures forall p <- Pieces(s, delim, piece) :: p != "" && delim !in p
    ensures Joined(Pieces(s, delim, piece)) == piece + Without(s, delim)
    decreases |s|
  {
    if s != "" {
      if s[0] == delim {
        PiecesKeepText(s[1..], delim, "");
        var rest := Pieces(s[1..], delim, "");
        assert ([piece] + rest)[1..] == rest && [] + rest == rest;
        assert "" + Without(s[1..], delim) == Without(s, delim);
      } else {
        PiecesKeepText(s[1..], delim, piece + [s[0]]);
        assert piece + [s[0]] + Without(s[1..], delim) == piece + Without(s, delim);
      }
    } else {
      assert piece + "" == piece && [piece][1..] == [];
    }
  }

  // A text up to the first delimiter is the first piece.
  lemma {:induction false} FirstPiece(a: string, delim: char, b: string, piece: string)
    requires delim !in a && piece + a != ""
    ensures Pieces(a + [delim] + b, delim, piece) == [piece + a] + Pieces(b, delim, "")
    decreases |a|
  {
    var s := a + [delim] + b;
    if a == "" {
      assert s[1..] == b && piece + a == piece;
    } else {
      assert s[1..] == a[1..] + [delim] + b && piece + [a[0]] + a[1..] == piece + a;
      FirstPiece(a[1..], delim, b, piece + [a[0]]);
    }
  }

  lemma {:induction false} LastPiece(a: string, delim: char, piece: string)
    requires delim !in a && piece + a != ""
    ensures Pieces(a, delim, piece) == [piece + a]
    decreases |a|
  {
    if a == "" {
      assert piece + a == piece;
    } else {
      assert piece + [a[0]] + a[1..] == piece + a;
      LastPiece(a[1..], delim, piece + [a[0]]);
    }
  }
}
