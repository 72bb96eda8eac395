/**
 * The parsing half of xyz_to_fdf: the declared atom count on line 0, the coordinate
 * lines from index 2 on, and the per-line split, float conversion and species lookup.
 * Floats are abstract: `parse` stands for Python's float() on one field, and `F`
 * for the float values it produces.
 */
module Xyz {
  import opened Wrappers
  import opened PyText
  import Species

  /** What the conversion can raise. */
  datatype Error =
    | BadCount                        // line 0 missing, or not an int
    | BadLine                         // a retained line has too few fields
    | BadFloat                        // one of fields 1..3 is not a float
    | UnknownElement(symbol: string)  // the symbol is not in the species table

  /** One entry of the atoms list: the three coordinates and the species index. */
  datatype Atom<F> = Atom(x: F, y: F, z: F, species: nat)

  /** int(lines[0].strip()), failing when there is no line 0 or it is not an int. */
  function ParseCount(lines: seq<string>): (r: Result<int, Error>)
    ensures r.Success? <==> |lines| > 0 && ParseInt(Strip(lines[0])).Some?
    ensures r.Success? ==> Some(r.value) == ParseInt(Strip(lines[0]))
    ensures r.Failure? ==> r.error == BadCount
  {
    if |lines| == 0 then Failure(BadCount)
    else match ParseInt(Strip(lines[0]))
      case None => Failure(BadCount)
      case Some(n) => Success(n)
  }

  /** lines[2:]: the coordinate candidates; the comment line 1 is not among them. */
  function CoordLines(lines: seq<string>): (r: seq<string>)
    ensures |r| == if |lines| <= 2 then 0 else |lines| - 2
    ensures forall i :: 0 <= i < |r| ==> r[i] == lines[i + 2]
  {
    if |lines| <= 2 then [] else lines[2..]
  }

  /**
   * One non-blank coordinate line: split it, convert fields 1, 2 and 3 in that order
   * (each index is checked just before its conversion), then look the symbol up.
   */
  function ParseAtom<F>(line: string, parse: string -> Option<F>): Result<Atom<F>, Error>
  {
    var p := Fields(line);
    if |p| < 2 then Failure(BadLine)
    else match parse(p[1])
      case None => Failure(BadFloat)
      case Some(x) =>
        if |p| < 3 then Failure(BadLine)
        else match parse(p[2])
          case None => Failure(BadFloat)
          case Some(y) =>
            if |p| < 4 then Failure(BadLine)
            else match parse(p[3])
              case None => Failure(BadFloat)
              case Some(z) =>
                match Species.Lookup(p[0])
                case None => Failure(UnknownElement(p[0]))
                case Some(si) => Success(Atom(x, y, z, si))
  }

  /**
   * What one line yields: an atom exactly when it has at least four fields, fields 1..3
   * are floats and field 0 is a known symbol; otherwise the error of the first check
   * that fails, in the order the line is processed. In particular a field or float
   * error is raised before the symbol is looked at.
   */
  lemma ParseAtomSpec<F>(line: string, parse: string -> Option<F>)
    ensures var r, p := ParseAtom(line, parse), Fields(line);
      r.Success? <==>
        |p| >= 4 && parse(p[1]).Some? && parse(p[2]).Some? && parse(p[3]).Some? &&
        Species.Lookup(p[0]).Some?
    ensures var r, p := ParseAtom(line, parse), Fields(line);
      r.Success? ==>
        r.value == Atom(parse(p[1]).value, parse(p[2]).value, parse(p[3]).value, Species.Lookup(p[0]).value)
    ensures var r, p := ParseAtom(line, parse), Fields(line);
      r == Failure(BadLine) <==>
        |p| < 4 && (|p| >= 2 ==> parse(p[1]).Some?) && (|p| >= 3 ==> parse(p[2]).Some?)
    ensures var r, p := ParseAtom(line, parse), Fields(line);
      r == Failure(BadFloat) <==>
        (|p| >= 2 && parse(p[1]).None?) ||
        (|p| >= 3 && parse(p[1]).Some? && parse(p[2]).None?) ||
        (|p| >= 4 && parse(p[1]).Some? && parse(p[2]).Some? && parse(p[3]).None?)
    ensures var r, p := ParseAtom(line, parse), Fields(line);
      (r.Failure? && r.error.UnknownElement?) <==>
        |p| >= 4 && parse(p[1]).Some? && parse(p[2]).Some? && parse(p[3]).Some? &&
        Species.Lookup(p[0]).None?
    ensures var r, p := ParseAtom(line, parse), Fields(line);
      r.Failure? && r.error.UnknownElement? ==> r.error.symbol == p[0]
    ensures ParseAtom(line, parse) != Failure(BadCount)
  {
  }

  /** The coordinate lines that are kept: those whose strip() is non-empty, in order. */
  function Retained(coord: seq<string>): seq<string>
  {
    if coord == [] then []
    else
      var line := coord[|coord| - 1];
      var front := Retained(coord[..|coord| - 1]);
      if Strip(line) == [] then front else front + [line]
  }

  /**
   * The shape of the parse loop, for any conversion f of one line: blank lines are
   * skipped, every other line is converted and its value appended, and the first line
   * that raises ends the loop with that error.
   */
  function Collect<A>(coord: seq<string>, f: string -> Result<A, Error>): Result<seq<A>, Error>
  {
    if coord == [] then Success([])
    else match Collect(coord[..|coord| - 1], f)
      case Failure(e) => Failure(e)
      case Success(values) =>
        var line := coord[|coord| - 1];
        if Strip(line) == [] then Success(values)
        else match f(line)
          case Failure(e) => Failure(e)
          case Success(v) => Success(values + [v])
  }

  /** ParseAtom as a value, for one choice of float() */
  function LineParser<F>(parse: string -> Option<F>): string -> Result<Atom<F>, Error>
  {
    line => ParseAtom(line, parse)
  }

  /** The loop over the coordinate lines of the source. */
  function ParseAtoms<F>(coord: seq<string>, parse: string -> Option<F>): Result<seq<Atom<F>>, Error>
  {
    Collect(coord, LineParser(parse))
  }

  /** Once a prefix of the lines has raised, the whole loop raises the same error. */
  lemma {:induction false} CollectFailureIsFinal<A>(coord: seq<string>, k: nat, f: string -> Result<A, Error>)
    requires k <= |coord| && Collect(coord[..k], f).Failure?
    ensures Collect(coord, f) == Collect(coord[..k], f)
    decreases |coord| - k
  {
    if k < |coord| {
      assert coord[..k + 1][..k] == coord[..k];
      CollectFailureIsFinal(coord, k + 1, f);
    } else {
      assert coord[..k] == coord;
    }
  }

  /** Blank lines contribute nothing to the retained lines, wherever they are. */
  lemma {:induction false} RetainedAppend(a: seq<string>, b: seq<string>)
    ensures Retained(a + b) == Retained(a) + Retained(b)
    decreases |b|
  {
    if b == [] {
      assert a + b == a;
    } else {
      var b' := b[..|b| - 1];
      assert (a + b)[..|a + b| - 1] == a + b';
      assert (a + b)[|a + b| - 1] == b[|b| - 1];
      RetainedAppend(a, b');
    }
  }

  /** One more line keeps the retained lines so far and adds the line when it is not blank. */
  lemma RetainedStep(coord: seq<string>)
    requires coord != []
    ensures var rf, line := Retained(coord[..|coord| - 1]), coord[|coord| - 1];
      Retained(coord) == if Strip(line) == [] then rf else rf + [line]
    ensures var rf := Retained(coord[..|coord| - 1]);
      |rf| <= |Retained(coord)| && forall i :: 0 <= i < |rf| ==> Retained(coord)[i] == rf[i]
  {
  }

  /** Every line of r converts without raising. */
  predicate AllConvert<A>(r: seq<string>, f: string -> Result<A, Error>)
  {
    forall i :: 0 <= i < |r| ==> f(r[i]).Success?
  }

  lemma AllConvertSnoc<A>(r: seq<string>, line: string, f: string -> Result<A, Error>)
    ensures AllConvert(r + [line], f) <==> AllConvert(r, f) && f(line).Success?
  {
    assert forall i :: 0 <= i < |r| ==> (r + [line])[i] == r[i];
    assert (r + [line])[|r|] == line;
  }

  /** The loop succeeds exactly when every retained line converts. */
  lemma {:induction false} CollectSucceeds<A>(coord: seq<string>, f: string -> Result<A, Error>)
    ensures Collect(coord, f).Success? <==> AllConvert(Retained(coord), f)
    decreases |coord|
  {
    if coord != [] {
      var front, line := coord[..|coord| - 1], coord[|coord| - 1];
      CollectSucceeds(front, f);
      RetainedStep(coord);
      if Strip(line) != [] {
        AllConvertSnoc(Retained(front), line, f);
      }
    }
  }



  /** On success there is one value per retained line, in input order. */
  lemma {:induction false} CollectValues<A>(coord: seq<string>, f: string -> Result<A, Error>, values: seq<A>)
    requires Collect(coord, f) == Success(values)
    ensures |values| == |Retained(coord)|
    ensures forall i :: 0 <= i < |values| ==> f(Retained(coord)[i]) == Success(values[i])
    decreases |coord|
  {
    if coord != [] {
      var front := coord[..|coord| - 1];
      var prev := Collect(front, f).value;
      CollectValues(front, f, prev);
      RetainedStep(coord);
      assert values[..|prev|] == prev;
    }
  }

  /** On failure the error is that of the first retained line that does not convert. */
  lemma {:induction false} CollectFirstError<A>(coord: seq<string>, f: string -> Result<A, Error>, e: Error)
    requires Collect(coord, f) == Failure(e)
    ensures exists k :: 0 <= k < |Retained(coord)| && f(Retained(coord)[k]) == Failure(e) &&
                        (forall j :: 0 <= j < k ==> f(Retained(coord)[j]).Success?)
    decreases |coord|
  {
    var front, line := coord[..|coord| - 1], coord[|coord| - 1];
    RetainedStep(coord);
    var rf := Retained(front);
    var r := Retained(coord);
    if Collect(front, f).Failure? {
      CollectFirstError(front, f, e);
      var k :| 0 <= k < |rf| && f(rf[k]) == Failure(e) && forall j :: 0 <= j < k ==> f(rf[j]).Success?;
      assert 0 <= k < |r| && f(r[k]) == Failure(e) && forall j :: 0 <= j < k ==> f(r[j]).Success?;
    } else {
      assert AllConvert(rf, f) by {
        CollectSucceeds(front, f);
      }
      assert r == rf + [line] && f(line) == Failure(e);
      assert f(r[|rf|]) == Failure(e) && forall j :: 0 <= j < |rf| ==> f(r[j]).Success?;
    }
  }

  /**
   * Conversely, a retained line that raises after every earlier retained line has
   * converted decides the outcome: the loop raises that line's error.
   */
  lemma CollectFailsAt<A>(coord: seq<string>, f: string -> Result<A, Error>, k: nat, e: Error)
    requires k < |Retained(coord)| && f(Retained(coord)[k]) == Failure(e)
    requires forall j :: 0 <= j < k ==> f(Retained(coord)[j]).Success?
    ensures Collect(coord, f) == Failure(e)
  {
    var r := Retained(coord);
    assert !Collect(coord, f).Success? by {
      CollectSucceeds(coord, f);
    }
    var e' := Collect(coord, f).error;
    CollectFirstError(coord, f, e');
    var k' :| 0 <= k' < |r| && f(r[k']) == Failure(e') && forall j :: 0 <= j < k' ==> f(r[j]).Success?;
    FirstFailureUnique(r, f, k, k');
  }

  /** There is only one first failing line. */
  lemma FirstFailureUnique<A>(r: seq<string>, f: string -> Result<A, Error>, k1: nat, k2: nat)
    requires k1 < |r| && f(r[k1]).Failure? && forall j :: 0 <= j < k1 ==> f(r[j]).Success?
    requires k2 < |r| && f(r[k2]).Failure? && forall j :: 0 <= j < k2 ==> f(r[j]).Success?
    ensures k1 == k2
  {
  }


  /** The loop depends on the retained lines only. */
  lemma CollectRetainedOnly<A>(c1: seq<string>, c2: seq<string>, f: string -> Result<A, Error>)
    requires Retained(c1) == Retained(c2)
    ensures Collect(c1, f) == Collect(c2, f)
  {
    CollectSucceeds(c1, f);
    CollectSucceeds(c2, f);
    if Collect(c1, f).Success? {
      var v1, v2 := Collect(c1, f).value, Collect(c2, f).value;
      CollectValues(c1, f, v1);
      CollectValues(c2, f, v2);
      assert v1 == v2;
    } else {
      var e1 := Collect(c1, f).error;
      var r := Retained(c1);
      CollectFirstError(c1, f, e1);
      var k :| 0 <= k < |r| && f(r[k]) == Failure(e1) && forall j :: 0 <= j < k ==> f(r[j]).Success?;
      CollectFailsAt(c2, f, k, e1);
    }
  }


  /** The whole parsing phase: the declared count, then the atoms of lines 2 onwards. */
  function ParseFile<F>(lines: seq<string>, parse: string -> Option<F>): Result<(int, seq<Atom<F>>), Error>
  {
    match ParseCount(lines)
    case Failure(e) => Failure(e)
    case Success(n) =>
      match ParseAtoms(CoordLines(lines), parse)
      case Failure(e) => Failure(e)
      case Success(atoms) => Success((n, atoms))
  }

  /** The parsing phase succeeds exactly when line 0 is an int and every retained line parses. */
  lemma ParseFileSucceeds<F>(lines: seq<string>, parse: string -> Option<F>)
    ensures var retained := Retained(CoordLines(lines));
      ParseFile(lines, parse).Success? <==>
        ParseCount(lines).Success? &&
        forall i :: 0 <= i < |retained| ==> ParseAtom(retained[i], parse).Success?
  {
    CollectSucceeds(CoordLines(lines), LineParser(parse));
  }

  /**
   * On success: the declared count is int(line 0), and there is one atom per retained
   * line, in input order, each the atom that line parses to.
   */
  lemma ParseFileValues<F>(lines: seq<string>, parse: string -> Option<F>)
    requires ParseFile(lines, parse).Success?
    ensures var (n, atoms) := ParseFile(lines, parse).value;
      var retained := Retained(CoordLines(lines));
      Some(n) == ParseInt(Strip(lines[0])) &&
      |atoms| == |retained| &&
      forall i :: 0 <= i < |atoms| ==> ParseAtom(retained[i], parse) == Success(atoms[i])
  {
    var atoms := ParseAtoms(CoordLines(lines), parse).value;
    CollectValues(CoordLines(lines), LineParser(parse), atoms);
  }

  /**
   * On failure: BadCount exactly when line 0 is missing or not an int; otherwise the
   * error is that of the first retained line that does not parse.
   */
  lemma ParseFileFailure<F>(lines: seq<string>, parse: string -> Option<F>, e: Error)
    requires ParseFile(lines, parse) == Failure(e)
    ensures e == BadCount <==> ParseCount(lines).Failure?
    ensures ParseCount(lines).Success? ==>
      var retained := Retained(CoordLines(lines));
      exists k :: 0 <= k < |retained| && ParseAtom(retained[k], parse) == Failure(e) &&
        forall j :: 0 <= j < k ==> ParseAtom(retained[j], parse).Success?
  {
    if ParseCount(lines).Success? {
      var retained := Retained(CoordLines(lines));
      CollectFirstError(CoordLines(lines), LineParser(parse), e);
      var k :| 0 <= k < |retained| && ParseAtom(retained[k], parse) == Failure(e) &&
        forall j :: 0 <= j < k ==> ParseAtom(retained[j], parse).Success?;
      ParseAtomSpec(retained[k], parse);
    }
  }

  /**
   * The first retained line that raises decides the error, whatever the lines after it
   * hold; an unknown symbol, in particular, aborts the whole conversion.
   */
  lemma FirstBadLineDecides<F>(lines: seq<string>, parse: string -> Option<F>, k: nat, e: Error)
    requires ParseCount(lines).Success?
    requires var retained := Retained(CoordLines(lines));
      k < |retained| && ParseAtom(retained[k], parse) == Failure(e) &&
      forall j :: 0 <= j < k ==> ParseAtom(retained[j], parse).Success?
    ensures ParseFile(lines, parse) == Failure(e)
  {
    CollectFailsAt(CoordLines(lines), LineParser(parse), k, e);
  }

  /** Line 1, the comment line, never affects the outcome. */
  lemma CommentIgnored<F>(lines: seq<string>, c: string, parse: string -> Option<F>)
    requires |lines| >= 2
    ensures ParseFile(lines[1 := c], parse) == ParseFile(lines, parse)
  {
    var lines' := lines[1 := c];
    assert lines'[0] == lines[0];
    assert CoordLines(lines') == CoordLines(lines);
  }

  /** A blank line inserted anywhere after the comment line never affects the outcome. */
  lemma BlankLineIgnored<F>(lines: seq<string>, i: nat, b: string, parse: string -> Option<F>)
    requires 2 <= i <= |lines| && IsBlank(b)
    ensures ParseFile(lines[..i] + [b] + lines[i..], parse) == ParseFile(lines, parse)
  {
    var lines' := lines[..i] + [b] + lines[i..];
    var front, back := lines[2..i], lines[i..];
    assert lines'[0] == lines[0];
    assert CoordLines(lines') == front + [b] + back;
    assert CoordLines(lines) == front + back;
    RetainedAppend(front + [b], back);
    RetainedAppend(front, [b]);
    assert Retained([b]) == [] by {
      StripBlank(b);
      assert [b][..0] == [];
    }
    RetainedAppend(front, back);
    CollectRetainedOnly(CoordLines(lines'), CoordLines(lines), LineParser(parse));
  }

  /**
   * The declared count is not checked against the atoms: whatever int line 0 holds, the
   * parsing phase succeeds exactly when the coordinate lines parse, and then yields the
   * declared value however many atoms there are.
   */
  lemma DeclaredCountNotChecked<F>(lines: seq<string>, m: int, parse: string -> Option<F>)
    requires |lines| >= 1
    ensures var atoms := ParseAtoms(CoordLines(lines), parse);
      ParseFile(lines[0 := IntToString(m) + "\n"], parse) ==
        if atoms.Success? then Success((m, atoms.value)) else Failure(atoms.error)
  {
    var lines' := lines[0 := IntToString(m) + "\n"];
    CountLineRoundTrip(m);
    assert ParseCount(lines') == Success(m);
    assert |lines| >= 3 ==> lines'[2..] == lines[2..];
    assert CoordLines(lines') == CoordLines(lines);
  }

  /** A count line written as str(m) and a newline is read back as m. */
  lemma CountLineRoundTrip(m: int)
    ensures ParseInt(Strip(IntToString(m) + "\n")) == Some(m)
  {
    assert IsBlank("\n") by {
      SpaceFacts();
    }
    StripWord(IntToString(m), "\n");
    ParseIntToString(m);
  }


  /** Every species index on success is the table's entry for its line's symbol, in 1..5. */
  lemma SpeciesInRange<F>(lines: seq<string>, parse: string -> Option<F>)
    requires ParseFile(lines, parse).Success?
    ensures var atoms := ParseFile(lines, parse).value.1;
      var retained := Retained(CoordLines(lines));
      |atoms| == |retained| &&
      forall i :: 0 <= i < |atoms| ==>
        1 <= atoms[i].species <= 5 && |Fields(retained[i])| >= 4 &&
        Species.Lookup(Fields(retained[i])[0]) == Some(atoms[i].species)
  {
    ParseFileValues(lines, parse);
    var atoms := ParseFile(lines, parse).value.1;
    var r := Retained(CoordLines(lines));
    forall i | 0 <= i < |atoms|
      ensures 1 <= atoms[i].species <= 5 && |Fields(r[i])| >= 4 &&
        Species.Lookup(Fields(r[i])[0]) == Some(atoms[i].species)
    {
      ParseAtomSpec(r[i], parse);
    }
  }
}
