/**
 * The rendering half of xyz_to_fdf: the FDF text it writes. Everything but the
 * NumberOfAtoms line and the coordinate rows is a fixed template; each template
 * constant below is the concatenation of the strings the converter writes, in order.
 * Floats are abstract: `format` stands for Python's `%10.5f` applied to one value.
 */
module Fdf {
  import opened Wrappers
  import opened PyText
  import opened Xyz

  /** System name and label, the lines before the atom count. */
  const SystemBlock: string :=
    "SystemName       Enoxaparin\n" +
    "SystemLabel      Enoxaparin\n"

  /** The species count and the static label block listing all five species. */
  const SpeciesBlock: string :=
    "NumberOfSpecies  5\n" +
    "%block ChemicalSpeciesLabel\n" +
    " 1   6    C.lda\n" +
    " 2   7    N.lda\n" +
    " 3   8    O.lda\n" +
    " 4   1    H.lda\n" +
    " 5   16   S.lda\n" +
    "%endblock ChemicalSpeciesLabel\n\n"

  /** The static 50 x 50 x 50 Angstrom orthogonal cell. */
  const LatticeBlock: string :=
    "LatticeConstant 1.0 Ang\n" +
    "%block LatticeVectors\n" +
    "  50.000 0.000  0.000\n" +
    "  0.000  50.000 0.000\n" +
    "  0.000  0.000  50.000\n" +
    "%endblock LatticeVectors\n\n"

  /** The coordinate format declarations and the opening of the coordinate block. */
  const CoordinatesOpen: string :=
    "AtomicCoordinatesFormat NotScaledCartesianAng\n" +
    "AtomCoorFormatOut   NotScaledCartesianAng\n" +
    "%block AtomicCoordinatesAndAtomicSpecies \n"

  const CoordinatesClose: string :=
    "%endblock AtomicCoordinatesAndAtomicSpecies\n\n"

  /** The fixed simulation-control directives that end the file. */
  const Parameters: string :=
    "PAO.BasisSize     DZP\n" +
    "PAO.EnergyShift   0.05 eV\n" +
    "MD.TypeOfRun      CG\n" +
    "MD.NumCGsteps     1000\n" +
    "MaxSCFIterations  100\n" +
    "SpinPolarized true\n" +
    "MD.MaxForceTol    0.05 eV/Ang\n" +
    "MeshCutoff        200.0 Ry\n" +
    "DM.UseSaveDM     true\n" +
    "UseSaveData      true\n" +
    "MD.UseSaveXV     true\n" +
    "MD.UseSaveCG     true\n" +
    "DM.MixingWeight   0.10\n" +
    "DM.NumberPulay    3\n" +
    "WriteCoorXmol\n" +
    "WriteMullikenPop 1\n" +
    "XC.functional      LDA\n" +
    "XC.authors        CA \n" +
    "SolutionMethod diagon\n" +
    "ElectronicTemperature  80 meV\n" +
    "DM.Tolerance         0.1000000000E-02\n"

  /** The header line that carries the declared atom count, as Python's str() writes it. */
  function CountLine(n: int): (r: string)
    ensures NoNewline(r)
  {
    var r := "NumberOfAtoms    " + IntToString(n);
    assert forall i :: 17 <= i < |r| ==> r[i] == IntToString(n)[i - 17];
    r
  }

  /**
   * Read back with str.split(), the NumberOfAtoms line gives its label and then the
   * count, which int() turns back into n: the header shows the declared value.
   */
  lemma CountLineFields(n: int)
    ensures Fields(CountLine(n)) == ["NumberOfAtoms", IntToString(n)]
    ensures ParseInt(Fields(CountLine(n))[1]) == Some(n)
  {
    var name, gap, si := "NumberOfAtoms", "    ", IntToString(n);
    assert IsWord(name) by {
      LetterFacts();
    }
    assert IsBlank(gap) by {
      SpaceFacts();
    }
    assert CountLine(n) == name + gap + si;
    TwoFields(name, gap, si);
    ParseIntToString(n);
  }

  /** Two words with whitespace between them split into those two words. */
  lemma TwoFields(a: string, gap: string, b: string)
    requires IsWord(a) && gap != [] && IsBlank(gap) && IsWord(b)
    ensures Fields(a + gap + b) == [a, b]
  {
    assert Fields(a) == [a] by {
      FieldsOfWord(a, []);
      assert a + [] == a;
    }
    assert Fields(b) == [b] by {
      FieldsOfWord(b, []);
      assert b + [] == b;
    }
    FieldsAcrossGap(a, gap, b);
  }

  /** Everything before the first coordinate row. */
  function Header(n: int): string
  {
    SystemBlock + CountLine(n) + "\n" + SpeciesBlock + LatticeBlock + CoordinatesOpen
  }

  /** One coordinate row: 3 spaces, x, 8 spaces, y, 7 spaces, z, 6 spaces, the species index. */
  function RowLine<F>(a: Atom<F>, format: F -> string): string
  {
    "   " + format(a.x) + "        " + format(a.y) + "       " + format(a.z) + "      " + IntToString(a.species)
  }

  /** The coordinate block: one row per atom, in the order of the atoms. */
  function RowLines<F>(atoms: seq<Atom<F>>, format: F -> string): (r: seq<string>)
    ensures |r| == |atoms|
    ensures forall i :: 0 <= i < |atoms| ==> r[i] == RowLine(atoms[i], format)
  {
    seq(|atoms|, i requires 0 <= i < |atoms| => RowLine(atoms[i], format))
  }

  /** The whole output file for a declared count and the parsed atoms. */
  function Render<F>(n: int, atoms: seq<Atom<F>>, format: F -> string): string
  {
    Header(n) + JoinLines(RowLines(atoms, format)) + CoordinatesClose + Parameters
  }

  lemma TemplateEndsWithNewline()
    ensures SystemBlock != [] && SystemBlock[|SystemBlock| - 1] == '\n'
    ensures SpeciesBlock != [] && SpeciesBlock[|SpeciesBlock| - 1] == '\n'
    ensures LatticeBlock != [] && LatticeBlock[|LatticeBlock| - 1] == '\n'
    ensures CoordinatesOpen != [] && CoordinatesOpen[|CoordinatesOpen| - 1] == '\n'
    ensures CoordinatesClose != [] && CoordinatesClose[|CoordinatesClose| - 1] == '\n'
  {
  }

  /** A row spans no line break as long as a formatted float does not. */
  lemma RowHasNoNewline<F>(a: Atom<F>, format: F -> string)
    requires NoNewline(format(a.x)) && NoNewline(format(a.y)) && NoNewline(format(a.z))
    ensures NoNewline(RowLine(a, format))
  {
    var sx, sy, sz, si := format(a.x), format(a.y), format(a.z), IntToString(a.species);
    NoNewlineAppend("   ", sx);
    NoNewlineAppend("   " + sx, "        ");
    NoNewlineAppend("   " + sx + "        ", sy);
    NoNewlineAppend("   " + sx + "        " + sy, "       ");
    NoNewlineAppend("   " + sx + "        " + sy + "       ", sz);
    NoNewlineAppend("   " + sx + "        " + sy + "       " + sz, "      ");
    NoNewlineAppend("   " + sx + "        " + sy + "       " + sz + "      ", si);
  }

  /** The line structure of a text laid out as Render lays it out, for any template parts. */
  lemma SplitLinesLayout(top: string, count: string, b1: string, b2: string, b3: string,
                         rows: seq<string>, c1: string, c2: string)
    requires forall t :: t in [top, b1, b2, b3, c1] ==> t != [] && t[|t| - 1] == '\n'
    requires NoNewline(count)
    requires forall k :: 0 <= k < |rows| ==> NoNewline(rows[k])
    ensures SplitLines(top + count + "\n" + b1 + b2 + b3 + JoinLines(rows) + c1 + c2) ==
      SplitLines(top) + [count] + SplitLines(b1) + SplitLines(b2) + SplitLines(b3) + rows +
      SplitLines(c1) + SplitLines(c2)
  {
    var body := JoinLines(rows);
    var line := count + "\n";
    var t4 := c1 + c2;
    var t3 := body + t4;
    var t2 := b3 + t3;
    var t1 := b2 + t2;
    var t0 := b1 + t1;
    assert top + count + "\n" + b1 + b2 + b3 + body + c1 + c2 == top + (line + t0) by {
      Assoc(top, count, "\n");
      SeqAssoc8(top, line, b1, b2, b3, body, c1, c2);
    }
    var lt, l1, l2, l3, k1, k2 := SplitLines(top), SplitLines(b1), SplitLines(b2), SplitLines(b3), SplitLines(c1), SplitLines(c2);
    assert SplitLines(t3) == rows + (k1 + k2) by {
      SplitJoinLines(rows);
      JoinLinesEndsWithNewline(rows);
      SplitLinesAppend(c1, c2);
      SplitLinesAppend(body, t4);
    }
    assert SplitLines(t0) == l1 + (l2 + (l3 + SplitLines(t3))) by {
      SplitLinesAppend(b3, t3);
      SplitLinesAppend(b2, t2);
      SplitLinesAppend(b1, t1);
    }
    assert SplitLines(top + (line + t0)) == lt + ([count] + SplitLines(t0)) by {
      SplitLinesOfLine(count);
      SplitLinesAppend(line, t0);
      SplitLinesAppend(top, line + t0);
    }
    SeqAssoc8(lt, [count], l1, l2, l3, rows, k1, k2);
  }

  lemma SeqAssoc8<T>(a: seq<T>, b: seq<T>, c: seq<T>, d: seq<T>, e: seq<T>, f: seq<T>, g: seq<T>, h: seq<T>)
    ensures a + (b + (c + (d + (e + (f + (g + h)))))) == a + b + c + d + e + f + g + h
  {
  }

  /**
   * Read back line by line, the output is the system lines, the count line, the rest of
   * the header, then exactly one row per atom in order, then the footer. The template
   * parts do not depend on the input. This needs only that a formatted float spans no
   * line break.
   */
  lemma RenderLines<F>(n: int, atoms: seq<Atom<F>>, format: F -> string)
    requires forall v :: NoNewline(format(v))
    ensures SplitLines(Render(n, atoms, format)) ==
      SplitLines(SystemBlock) + [CountLine(n)] +
      SplitLines(SpeciesBlock) + SplitLines(LatticeBlock) + SplitLines(CoordinatesOpen) +
      RowLines(atoms, format) +
      SplitLines(CoordinatesClose) + SplitLines(Parameters)
  {
    var rows := RowLines(atoms, format);
    forall k | 0 <= k < |rows| ensures NoNewline(rows[k]) {
      RowHasNoNewline(atoms[k], format);
    }
    TemplateEndsWithNewline();
    SplitLinesLayout(SystemBlock, CountLine(n), SpeciesBlock, LatticeBlock, CoordinatesOpen,
                     rows, CoordinatesClose, Parameters);
  }

  /**
   * Read back with str.split(), a row gives the fields of the three formatted floats
   * and then the species index, which int() turns back into the atom's species.
   */
  lemma RowFields<F>(a: Atom<F>, format: F -> string)
    ensures Fields(RowLine(a, format)) ==
      Fields(format(a.x)) + Fields(format(a.y)) + Fields(format(a.z)) + [IntToString(a.species)]
  {
    FieldsOfRowText(format(a.x), format(a.y), format(a.z), IntToString(a.species));
  }

  lemma FieldsOfRowText(sx: string, sy: string, sz: string, si: string)
    requires IsWord(si)
    ensures Fields("   " + sx + "        " + sy + "       " + sz + "      " + si) ==
      Fields(sx) + Fields(sy) + Fields(sz) + [si]
  {
    RowGaps();
    var p1 := "   " + sx;
    var p2 := p1 + "        " + sy;
    var p3 := p2 + "       " + sz;
    assert Fields(p1) == Fields(sx) by {
      FieldsAcrossGap([], "   ", sx);
      assert [] + "   " + sx == p1;
    }
    assert Fields(p2) == Fields(sx) + Fields(sy) by {
      FieldsAcrossGap(p1, "        ", sy);
    }
    assert Fields(p3) == Fields(sx) + Fields(sy) + Fields(sz) by {
      FieldsAcrossGap(p2, "       ", sz);
    }
    assert Fields(si) == [si] by {
      FieldsOfWord(si, []);
      assert si + [] == si;
    }
    FieldsAcrossGap(p3, "      ", si);
  }

  /** The runs of spaces between the fields of a row are whitespace. */
  lemma RowGaps()
    ensures IsBlank("   ") && IsBlank("        ") && IsBlank("       ") && IsBlank("      ")
  {
    SpaceFacts();
  }

  /** The last field of a row reads back, through int(), as the atom's species index. */
  lemma RowSpecies<F>(a: Atom<F>, format: F -> string)
    ensures var p := Fields(RowLine(a, format)); p != [] && ParseInt(p[|p| - 1]) == Some(a.species as int)
  {
    RowFields(a, format);
    ParseIntToString(a.species);
  }
}
