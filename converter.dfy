/**
 * xyz_to_fdf itself: read the atoms of an XYZ file, then write the FDF file.
 * The parsing phase runs to completion before the output file is opened, so an
 * input that raises leaves the output file as it was.
 */
module Converter {
  import opened Wrappers
  import opened PyText
  import Species
  import opened Xyz
  import opened Fdf

  /** The output file: the text written to it so far. */
  class OutputFile {
    var contents: string

    constructor ()
      ensures contents == []
    {
      contents := [];
    }

    /** open(path, 'w'): the file is truncated. */
    method Truncate()
      modifies this
      ensures contents == []
    {
      contents := [];
    }

    /** out.write(s): s is appended. */
    method Write(s: string)
      modifies this
      ensures contents == old(contents) + s
    {
      contents := contents + s;
    }
  }

  /** What a call produces: the text of the FDF file, or the error it raises. */
  function Convert<F>(lines: seq<string>, parse: string -> Option<F>, format: F -> string): Result<string, Error>
  {
    match ParseFile(lines, parse)
    case Failure(e) => Failure(e)
    case Success((n, atoms)) => Success(Render(n, atoms, format))
  }

  /** The reading phase: int() of line 0, then the atoms of lines 2 onwards. */
  method ReadAtoms<F>(lines: seq<string>, parse: string -> Option<F>) returns (r: Result<(int, seq<Atom<F>>), Error>)
    ensures r == ParseFile(lines, parse)
  {
    if |lines| == 0 {
      return Failure(BadCount);
    }
    var count := ParseInt(Strip(lines[0]));
    if count.None? {
      return Failure(BadCount);
    }
    var numAtoms := count.value;
    var atoms := ReadCoordinates(CoordLines(lines), parse);
    if atoms.Failure? {
      return Failure(atoms.error);
    }
    return Success((numAtoms, atoms.value));
  }

  /**
   * The loop over the coordinate lines: blank lines are skipped, every other line
   * yields one atom, and the first line that raises ends the loop.
   */
  method ReadCoordinates<F>(coordLines: seq<string>, parse: string -> Option<F>) returns (r: Result<seq<Atom<F>>, Error>)
    ensures r == ParseAtoms(coordLines, parse)
  {
    var atoms: seq<Atom<F>> := [];
    for k := 0 to |coordLines|
      invariant ParseAtoms(coordLines[..k], parse) == Success(atoms)
    {
      var line := coordLines[k];
      assert coordLines[..k + 1][..k] == coordLines[..k] && coordLines[..k + 1][k] == line;
      if Strip(line) != [] {
        StripBlank(line);
        var atom := ReadAtom(line, parse);
        if atom.Failure? {
          CollectFailureIsFinal(coordLines, k + 1, LineParser(parse));
          return Failure(atom.error);
        }
        atoms := atoms + [atom.value];
      }
    }
    assert coordLines[..|coordLines|] == coordLines;
    return Success(atoms);
  }

  /**
   * The body of the loop for one non-blank line: split it, convert fields 1, 2 and 3
   * (each index raising before its conversion when the field is missing), then look
   * the symbol up.
   */
  method ReadAtom<F>(line: string, parse: string -> Option<F>) returns (r: Result<Atom<F>, Error>)
    requires !IsBlank(line)
    ensures r == ParseAtom(line, parse)
  {
    var parts := Fields(line);
    var symbol := parts[0];
    if |parts| < 2 {
      return Failure(BadLine);
    }
    var x := parse(parts[1]);
    if x.None? {
      return Failure(BadFloat);
    }
    if |parts| < 3 {
      return Failure(BadLine);
    }
    var y := parse(parts[2]);
    if y.None? {
      return Failure(BadFloat);
    }
    if |parts| < 4 {
      return Failure(BadLine);
    }
    var z := parse(parts[3]);
    if z.None? {
      return Failure(BadFloat);
    }
    if symbol !in Species.SpeciesMap {
      return Failure(UnknownElement(symbol));
    }
    var specieIndex := Species.SpeciesMap[symbol];
    return Success(Atom(x.value, y.value, z.value, specieIndex));
  }

  /** The writing phase: the fixed header, one row per atom, the fixed footer. */
  method WriteFdf<F>(out: OutputFile, numAtoms: int, atoms: seq<Atom<F>>, format: F -> string)
    modifies out
    ensures out.contents == old(out.contents) + Render(numAtoms, atoms, format)
  {
    ghost var start := out.contents;
    WriteHeader(out, numAtoms);
    WriteRows(out, atoms, format);
    out.Write(CoordinatesClose);
    out.Write(Parameters);
    FooterParts(start, Header(numAtoms), JoinLines(RowLines(atoms, format)), CoordinatesClose, Parameters);
  }

  /** The system, species and lattice blocks, up to the opening of the coordinate block. */
  method WriteHeader(out: OutputFile, numAtoms: int)
    modifies out
    ensures out.contents == old(out.contents) + Header(numAtoms)
  {
    ghost var start := out.contents;
    out.Write(SystemBlock);
    out.Write("NumberOfAtoms    " + IntToString(numAtoms) + "\n");
    out.Write(SpeciesBlock);
    out.Write(LatticeBlock);
    out.Write(CoordinatesOpen);
    HeaderParts(start, SystemBlock, CountLine(numAtoms), SpeciesBlock, LatticeBlock, CoordinatesOpen);
  }

  /** The loop over the atoms: one formatted row each, in order. */
  method WriteRows<F>(out: OutputFile, atoms: seq<Atom<F>>, format: F -> string)
    modifies out
    ensures out.contents == old(out.contents) + JoinLines(RowLines(atoms, format))
  {
    ghost var start := out.contents;
    assert RowLines(atoms[..0], format) == [];
    for i := 0 to |atoms|
      invariant out.contents == start + JoinLines(RowLines(atoms[..i], format))
    {
      var a := atoms[i];
      out.Write("   " + format(a.x) + "        " + format(a.y) + "       " + format(a.z) + "      " +
                IntToString(a.species) + "\n");
      AppendRow(start, atoms, i, format);
    }
    assert atoms[..|atoms|] == atoms;
  }

  lemma EmptyPrefix(s: string)
    ensures [] + s == s
  {
  }

  /** The header writes, one after the other, give the header. */
  lemma HeaderParts(start: string, sys: string, count: string, species: string, lattice: string, open: string)
    ensures start + sys + (count + "\n") + species + lattice + open ==
            start + (sys + count + "\n" + species + lattice + open)
  {
  }

  /** The footer writes complete the rendered file. */
  lemma FooterParts(start: string, header: string, rows: string, close: string, params: string)
    ensures start + header + rows + close + params == start + (header + rows + close + params)
  {
  }

  /** Writing the row of atom i extends the coordinate block by that row. */
  lemma AppendRow<F>(h: string, atoms: seq<Atom<F>>, i: nat, format: F -> string)
    requires i < |atoms|
    ensures h + JoinLines(RowLines(atoms[..i], format)) + (RowLine(atoms[i], format) + "\n") ==
            h + JoinLines(RowLines(atoms[..i + 1], format))
  {
    var rows, row := RowLines(atoms[..i], format), RowLine(atoms[i], format);
    assert RowLines(atoms[..i + 1], format) == rows + [row];
    assert JoinLines(rows + [row]) == JoinLines(rows) + (row + "\n") by {
      JoinLinesAppend(rows, [row]);
      assert JoinLines([row]) == row + "\n" + JoinLines([]);
    }
    Assoc(h, JoinLines(rows), row + "\n");
  }


  /**
   * xyz_to_fdf(input_xyz, output_fdf) with the input given as its lines: the result is
   * what Convert says, the output file then holds exactly that text, and a call that
   * raises leaves the output file untouched.
   */
  method XyzToFdf<F>(lines: seq<string>, parse: string -> Option<F>, format: F -> string, out: OutputFile)
    returns (r: Result<string, Error>)
    modifies out
    ensures r == Convert(lines, parse, format)
    ensures r.Success? ==> out.contents == r.value
    ensures r.Failure? ==> out.contents == old(out.contents)
  {
    var parsed := ReadAtoms(lines, parse);
    if parsed.Failure? {
      return Failure(parsed.error);
    }
    var (numAtoms, atoms) := parsed.value;
    out.Truncate();
    WriteFdf(out, numAtoms, atoms, format);
    EmptyPrefix(Render(numAtoms, atoms, format));
    ConvertOutcome(lines, parse, format);
    return Success(out.contents);
  }

  /**
   * On success the output, read line by line, is the fixed template around the count
   * line for int(line 0) and the coordinate rows of the parsed atoms.
   */
  lemma ConvertLines<F>(lines: seq<string>, parse: string -> Option<F>, format: F -> string)
    requires ParseFile(lines, parse).Success?
    requires forall v :: NoNewline(format(v))
    ensures var (n, atoms) := ParseFile(lines, parse).value;
      Convert(lines, parse, format) == Success(Render(n, atoms, format)) &&
      SplitLines(Render(n, atoms, format)) ==
        SplitLines(SystemBlock) + [CountLine(n)] +
        SplitLines(SpeciesBlock) + SplitLines(LatticeBlock) + SplitLines(CoordinatesOpen) +
        RowLines(atoms, format) +
        SplitLines(CoordinatesClose) + SplitLines(Parameters)
  {
    var (n, atoms) := ParseFile(lines, parse).value;
    ConvertOutcome(lines, parse, format);
    RenderLines(n, atoms, format);
  }

  /**
   * The conversion fails exactly when the parsing phase does, with its error, and
   * otherwise renders what it parsed; so every property of ParseFile's outcome is one
   * of the conversion's.
   */
  lemma ConvertOutcome<F>(lines: seq<string>, parse: string -> Option<F>, format: F -> string)
    ensures Convert(lines, parse, format).Failure? <==> ParseFile(lines, parse).Failure?
    ensures Convert(lines, parse, format).Failure? ==>
      Convert(lines, parse, format).error == ParseFile(lines, parse).error
    ensures ParseFile(lines, parse).Success? ==>
      var (n, atoms) := ParseFile(lines, parse).value;
      Convert(lines, parse, format) == Success(Render(n, atoms, format))
  {
  }

  /**
   * On success there is one coordinate row per retained input line, in input order:
   * row i is the rendering of the atom that retained line i parses to.
   */
  lemma ConvertRows<F>(lines: seq<string>, parse: string -> Option<F>, format: F -> string)
    requires ParseFile(lines, parse).Success?
    ensures var retained := Retained(CoordLines(lines));
      var rows := RowLines(ParseAtoms(CoordLines(lines), parse).value, format);
      |rows| == |retained| &&
      forall i :: 0 <= i < |retained| ==>
        ParseAtom(retained[i], parse).Success? && rows[i] == RowLine(ParseAtom(retained[i], parse).value, format)
  {
    ParseFileValues(lines, parse);
  }
}
