/**
 * The token level of the Wavefront OBJ reader `ler_obj` and of the face
 * lines `salvar_obj` writes. A line reaches the reader already split on
 * white space; `float` is a parameter, and `int` is decimal with an optional
 * sign. OBJ indices start at 1, the mesh's at 0.
 */
module ObjFormat {
  import opened Wrappers

  datatype ObjError =
    | EmptyLine            // `partes[0]` of a blank line
    | BadFloat(token: string)
    | BadInt(token: string)

  /** The lists `ler_obj` returns. */
  datatype Obj = Obj(vertices: seq<seq<real>>, faces: seq<seq<int>>)

  predicate IsDigit(c: char) { '0' <= c <= '9' }

  predicate AllDigits(s: string) { forall k :: 0 <= k < |s| ==> IsDigit(s[k]) }

  function DigitChar(d: nat): (c: char)
    requires d < 10
    ensures IsDigit(c) && c as int - '0' as int == d
  {
    ('0' as int + d) as char
  }

  /** The value of a string of decimal digits. */
  function NatValue(s: string): nat
    requires AllDigits(s)
  {
    if s == [] then 0 else NatValue(s[..|s| - 1]) * 10 + (s[|s| - 1] as int - '0' as int)
  }

  /** `int(token)`: decimal digits after an optional `-` or `+`; anything else is `None` (a `ValueError`). */
  function ParseInt(s: string): (r: Option<int>)
    ensures r.Some? ==> s != []
  {
    if s != [] && (s[0] == '-' || s[0] == '+') then
      var digits := s[1..];
      if digits != [] && AllDigits(digits) then
        Some(if s[0] == '-' then -(NatValue(digits) as int) else NatValue(digits))
      else None
    else if s != [] && AllDigits(s) then Some(NatValue(s))
    else None
  }

  /** `str(n)` for a natural number: its decimal digits, without leading zeros. */
  function NatToString(n: nat): (s: string)
    ensures s != [] && AllDigits(s)
  {
    if n < 10 then [DigitChar(n)] else NatToString(n / 10) + [DigitChar(n % 10)]
  }

  /** `str(i)`. */
  function IntToString(i: int): (s: string)
    ensures s != []
  {
    if i < 0 then "-" + NatToString(-i) else NatToString(i)
  }

  /** `[str(i + 1) for i in face]` of `salvar_obj`. */
  function IndexTokens(face: seq<int>): (tokens: seq<string>)
    ensures |tokens| == |face|
  {
    if face == [] then [] else IndexTokens(face[..|face| - 1]) + [IntToString(face[|face| - 1] + 1)]
  }

  /** The indices of an `f` line: each token as an integer, minus one; the first bad token is the error. */
  function ParseFace(tokens: seq<string>): Result<seq<int>, ObjError> {
    if tokens == [] then Ok([])
    else
      match ParseFace(tokens[..|tokens| - 1])
      case Err(e) => Err(e)
      case Ok(face) =>
        match ParseInt(tokens[|tokens| - 1])
        case None => Err(BadInt(tokens[|tokens| - 1]))
        case Some(v) => Ok(face + [v - 1])
  }

  /** The coordinates of a `v` line: `[float(x) for x in partes[1:4]]`. */
  function ParseVertex(tokens: seq<string>, parseFloat: string -> Option<real>): Result<seq<real>, ObjError> {
    if tokens == [] then Ok([])
    else
      match ParseVertex(tokens[..|tokens| - 1], parseFloat)
      case Err(e) => Err(e)
      case Ok(v) =>
        match parseFloat(tokens[|tokens| - 1])
        case None => Err(BadFloat(tokens[|tokens| - 1]))
        case Some(x) => Ok(v + [x])
  }

  /** Tokens 1 to 3 of a line (`partes[1:4]`), fewer when the line is shorter. */
  function Coordinates(parts: seq<string>): seq<string>
    requires parts != []
  {
    if |parts| >= 4 then parts[1..4] else parts[1..]
  }

  /** One line of the file: a vertex, a face, or anything else, which is skipped. */
  function ParseLine(parts: seq<string>, acc: Obj, parseFloat: string -> Option<real>): Result<Obj, ObjError> {
    if parts == [] then Err(EmptyLine)
    else if parts[0] == "v" then
      match ParseVertex(Coordinates(parts), parseFloat)
      case Err(e) => Err(e)
      case Ok(v) => Ok(acc.(vertices := acc.vertices + [v]))
    else if parts[0] == "f" then
      match ParseFace(parts[1..])
      case Err(e) => Err(e)
      case Ok(f) => Ok(acc.(faces := acc.faces + [f]))
    else Ok(acc)
  }

  /** What `ler_obj` returns for the split lines of a file: the lists, or the first error. */
  function ParseObj(lines: seq<seq<string>>, parseFloat: string -> Option<real>): Result<Obj, ObjError> {
    if lines == [] then Ok(Obj([], []))
    else
      match ParseObj(lines[..|lines| - 1], parseFloat)
      case Err(e) => Err(e)
      case Ok(acc) => ParseLine(lines[|lines| - 1], acc, parseFloat)
  }

  /** The inner loop of `ler_obj` over the tokens of an `f` line. */
  method ReadFace(tokens: seq<string>) returns (r: Result<seq<int>, ObjError>)
    ensures r == ParseFace(tokens)
  {
    var face: seq<int> := [];
    for k := 0 to |tokens|
      invariant ParseFace(tokens[..k]) == Ok(face)
    {
      assert tokens[..k + 1][..k] == tokens[..k];
      var v := ParseInt(tokens[k]);
      if v.None? {
        FaceErrorStays(tokens, k + 1);
        return Err(BadInt(tokens[k]));
      }
      face := face + [v.value - 1];
    }
    assert tokens[..|tokens|] == tokens;
    return Ok(face);
  }

  /** `ler_obj` over the split lines of a file. */
  method ReadObj(lines: seq<seq<string>>, parseFloat: string -> Option<real>) returns (r: Result<Obj, ObjError>)
    ensures r == ParseObj(lines, parseFloat)
  {
    var vertices: seq<seq<real>> := [];
    var faces: seq<seq<int>> := [];
    for k := 0 to |lines|
      invariant ParseObj(lines[..k], parseFloat) == Ok(Obj(vertices, faces))
    {
      assert lines[..k + 1][..k] == lines[..k];
      var parts := lines[k];
      var step: Result<Obj, ObjError>;
      if parts == [] {
        step := Err(EmptyLine);
      } else if parts[0] == "v" {
        var v := ParseVertex(Coordinates(parts), parseFloat);
        if v.Err? {
          step := Err(v.error);
        } else {
          vertices := vertices + [v.value];
          step := Ok(Obj(vertices, faces));
        }
      } else if parts[0] == "f" {
        var f := ReadFace(parts[1..]);
        if f.Err? {
          step := Err(f.error);
        } else {
          faces := faces + [f.value];
          step := Ok(Obj(vertices, faces));
        }
      } else {
        step := Ok(Obj(vertices, faces));
      }
      if step.Err? {
        ObjErrorStays(lines, k + 1, parseFloat);
        return step;
      }
    }
    assert lines[..|lines|] == lines;
    return Ok(Obj(vertices, faces));
  }

  /** A bad token in a prefix is the error of the whole face. */
  lemma {:induction false} FaceErrorStays(tokens: seq<string>, n: nat)
    requires n <= |tokens| && ParseFace(tokens[..n]).Err?
    ensures ParseFace(tokens) == ParseFace(tokens[..n])
    decreases |tokens| - n
  {
    if n < |tokens| {
      assert tokens[..n + 1][..n] == tokens[..n];
      FaceErrorStays(tokens, n + 1);
    } else {
      assert tokens[..n] == tokens;
    }
  }

  /** An error in a prefix of the lines is the error of the whole file. */
  lemma {:induction false} ObjErrorStays(lines: seq<seq<string>>, n: nat, parseFloat: string -> Option<real>)
    requires n <= |lines| && ParseObj(lines[..n], parseFloat).Err?
    ensures ParseObj(lines, parseFloat) == ParseObj(lines[..n], parseFloat)
    decreases |lines| - n
  {
    if n < |lines| {
      assert lines[..n + 1][..n] == lines[..n];
      ObjErrorStays(lines, n + 1, parseFloat);
    } else {
      assert lines[..n] == lines;
    }
  }

  /** Reading back the digits `str` writes gives the number. */
  lemma {:induction false} NatRoundTrip(n: nat)
    ensures NatValue(NatToString(n)) == n
  {
    if n >= 10 {
      NatRoundTrip(n / 10);
      var s := NatToString(n);
      assert s[..|s| - 1] == NatToString(n / 10);
    }
  }

  /** `int(str(i)) == i`. */
  lemma IntRoundTrip(i: int)
    ensures ParseInt(IntToString(i)) == Some(i)
  {
    NatRoundTrip(if i < 0 then -i else i);
    if i < 0 {
      var s := IntToString(i);
      assert s[1..] == NatToString(-i);
    } else {
      var s := IntToString(i);
      assert s[0] != '-' && s[0] != '+' by { assert IsDigit(s[0]); }
    }
  }

  /** The tokens `salvar_obj` writes for a face read back, with `ler_obj`'s `- 1`, as the same face. */
  lemma {:induction false} FaceRoundTrip(face: seq<int>)
    ensures ParseFace(IndexTokens(face)) == Ok(face)
  {
    if face != [] {
      var init := face[..|face| - 1];
      var tokens := IndexTokens(face);
      assert tokens[..|tokens| - 1] == IndexTokens(init);
      FaceRoundTrip(init);
      IntRoundTrip(face[|face| - 1] + 1);
      assert init + [face[|face| - 1]] == face;
    }
  }

  /** A file holding just the face line `salvar_obj` writes reads back as that one face. */
  lemma FaceLineRoundTrip(face: seq<int>, parseFloat: string -> Option<real>)
    ensures ParseObj([["f"] + IndexTokens(face)], parseFloat) == Ok(Obj([], [face]))
  {
    var lines := [["f"] + IndexTokens(face)];
    assert lines[..0] == [];
    assert lines[0][0] == "f" && lines[0][1..] == IndexTokens(face);
    assert lines[0][0] != "v" by { assert "f"[0] != "v"[0]; }
    FaceRoundTrip(face);
    assert ParseFace(lines[0][1..]) == Ok(face);
    var empty: seq<seq<int>> := [];
    assert empty + [face] == [face];
    assert ParseLine(lines[0], Obj([], []), parseFloat) == Ok(Obj([], [face]));
  }

  /** Lines that are neither vertices nor faces (comments, normals, groups) change nothing. */
  lemma OtherLinesSkipped(lines: seq<seq<string>>, other: seq<string>, parseFloat: string -> Option<real>)
    requires other != [] && other[0] != "v" && other[0] != "f"
    ensures ParseObj(lines + [other], parseFloat) == ParseObj(lines, parseFloat)
  {
    assert (lines + [other])[..|lines|] == lines;
  }

  /** A blank line is an error (`partes[0]` of an empty list). */
  lemma BlankLineFails(lines: seq<seq<string>>, parseFloat: string -> Option<real>)
    requires ParseObj(lines, parseFloat).Ok?
    ensures ParseObj(lines + [[]], parseFloat) == Err(EmptyLine)
  {
    assert (lines + [[]])[..|lines|] == lines;
  }
}
