/**
 * The pieces of Python's string handling that the converter relies on:
 * str.strip() and str.split() with no argument (both use str.isspace()),
 * int() on a stripped line, and the decimal rendering of an int in an f-string.
 * Also a line view of text (join with and split on '\n'), used to state what the
 * rendered file looks like line by line.
 */
module PyText {
  import opened Wrappers

  /**
   * The characters for which Python's str.isspace() is true: U+0009-U+000D,
   * U+001C-U+0020, U+0085, U+00A0, U+1680, U+2000-U+200A, U+2028, U+2029, U+202F,
   * U+205F and U+3000.
   */
  const SpaceChars: string :=
    "\t\n\U{B}\U{C}\r\U{1C}\U{1D}\U{1E}\U{1F} \U{85}\U{A0}\U{1680}" +
    "\U{2000}\U{2001}\U{2002}\U{2003}\U{2004}\U{2005}\U{2006}\U{2007}\U{2008}\U{2009}\U{200A}" +
    "\U{2028}\U{2029}\U{202F}\U{205F}\U{3000}"

  /**
   * c occurs in cs. Written as a recursion so that the verifier unfolds the list of
   * whitespace only where a proof asks for it (see SpaceFacts).
   */
  predicate Occurs(c: char, cs: string)
  {
    cs != [] && (cs[0] == c || Occurs(c, cs[1..]))
  }

  lemma OccursIn(c: char, cs: string)
    ensures Occurs(c, cs) <==> c in cs
  {
    if cs != [] {
      OccursIn(c, cs[1..]);
      assert cs == [cs[0]] + cs[1..];
    }
  }

  predicate IsSpace(c: char)
  {
    Occurs(c, SpaceChars)
  }

  /** The characters the converter reads and writes: which are whitespace and which are not. */
  lemma SpaceFacts()
    ensures IsSpace(' ') && IsSpace('\n')
    ensures forall c :: '0' <= c <= '9' || c == '-' || c == '+' ==> !IsSpace(c)
  {
    OccursIn(' ', SpaceChars);
    OccursIn('\n', SpaceChars);
    forall c | '0' <= c <= '9' || c == '-' || c == '+' ensures !IsSpace(c) {
      OccursIn(c, SpaceChars);
    }
  }

  /** ASCII letters are not whitespace. */
  lemma LetterFacts()
    ensures forall c :: 'A' <= c <= 'Z' || 'a' <= c <= 'z' ==> !IsSpace(c)
  {
    forall c | 'A' <= c <= 'Z' || 'a' <= c <= 'z' ensures !IsSpace(c) {
      OccursIn(c, SpaceChars);
    }
  }

  /** A line that is empty or whitespace only: its strip() is falsy. */
  predicate IsBlank(s: string)
  {
    forall i :: 0 <= i < |s| ==> IsSpace(s[i])
  }

  /** How many whitespace characters s starts with: what str.lstrip() removes. */
  function LeadingSpaces(s: string): (n: nat)
    ensures n <= |s|
    ensures IsBlank(s[..n])
    ensures n < |s| ==> !IsSpace(s[n])
  {
    if s != [] && IsSpace(s[0]) then
      var n := 1 + LeadingSpaces(s[1..]);
      assert s[..n] == [s[0]] + s[1..][..n - 1];
      n
    else 0
  }

  /** The length of s without its trailing whitespace: what str.rstrip() keeps. */
  function TextEnd(s: string): (m: nat)
    ensures m <= |s|
    ensures IsBlank(s[m..])
    ensures m > 0 ==> !IsSpace(s[m - 1])
  {
    if s != [] && IsSpace(s[|s| - 1]) then
      var m := TextEnd(s[..|s| - 1]);
      assert s[m..] == s[..|s| - 1][m..] + [s[|s| - 1]];
      m
    else |s|
  }

  /** Where the text kept by str.strip() ends: never before it starts, even on a blank line. */
  function StripEnd(s: string): (e: nat)
    ensures LeadingSpaces(s) <= e <= |s|
  {
    var a, b := LeadingSpaces(s), TextEnd(s);
    if b <= a then a else b
  }

  /** str.strip(): the line with its leading and trailing whitespace removed. */
  function Strip(s: string): string
  {
    s[LeadingSpaces(s)..StripEnd(s)]
  }

  /** strip() leaves nothing exactly when the line is blank. */
  lemma StripBlank(s: string)
    ensures Strip(s) == [] <==> IsBlank(s)
  {
    if Strip(s) == [] {
      EmptyStripIsBlank(s);
    }
    if IsBlank(s) {
      BlankStripsToEmpty(s);
    }
  }

  lemma EmptyStripIsBlank(s: string)
    requires Strip(s) == []
    ensures IsBlank(s)
  {
    var a, b := LeadingSpaces(s), TextEnd(s);
    assert |Strip(s)| == StripEnd(s) - a;
    assert s == s[..a] + s[a..];
    assert s[a..] == s[b..][a - b..];
    BlankConcat(s[..a], s[a..]);
  }

  lemma BlankStripsToEmpty(s: string)
    requires IsBlank(s)
    ensures Strip(s) == []
  {
    BlankSpansAll(s);
  }

  /** On a blank line the leading whitespace is the whole line. */
  lemma {:induction false} BlankSpansAll(s: string)
    requires IsBlank(s)
    ensures LeadingSpaces(s) == |s|
    decreases |s|
  {
    if s != [] {
      assert IsSpace(s[0]);
      BlankSpansAll(s[1..]);
    }
  }

  lemma BlankConcat(a: string, b: string)
    requires IsBlank(a) && IsBlank(b)
    ensures IsBlank(a + b)
  {
    assert forall i :: 0 <= i < |b| ==> (a + b)[|a| + i] == b[i];
  }

  /** What strip() removes, before and after the slice it keeps, is whitespace only. */
  lemma StripRemovesSpace(s: string)
    ensures IsBlank(s[..LeadingSpaces(s)]) && IsBlank(s[StripEnd(s)..])
  {
    var b := TextEnd(s);
    assert s[StripEnd(s)..] == s[b..][StripEnd(s) - b..];
  }

  /** What strip() keeps neither starts nor ends with whitespace. */
  lemma StripKeepsEnds(s: string)
    ensures var r := Strip(s); r != [] ==> !IsSpace(r[0]) && !IsSpace(r[|r| - 1])
  {
    var a, e := LeadingSpaces(s), StripEnd(s);
    if a < e {
      var r := Strip(s);
      assert r[0] == s[a] && r[|r| - 1] == s[e - 1];
    }
  }

  /** strip() of a word followed by whitespace, such as a line and its '\n', is the word. */
  lemma StripWord(w: string, pad: string)
    requires IsWord(w) && IsBlank(pad)
    ensures Strip(w + pad) == w
  {
    var s := w + pad;
    assert LeadingSpaces(s) == 0 by { assert s[0] == w[0]; }
    TextEndPad(w, pad);
    assert s[0..|w|] == w;
  }

  lemma {:induction false} TextEndPad(w: string, pad: string)
    requires w != [] && !IsSpace(w[|w| - 1]) && IsBlank(pad)
    ensures TextEnd(w + pad) == |w|
    decreases |pad|
  {
    var s := w + pad;
    if pad == [] {
      assert s == w;
    } else {
      assert s[|s| - 1] == pad[|pad| - 1];
      assert s[..|s| - 1] == w + pad[..|pad| - 1];
      TextEndPad(w, pad[..|pad| - 1]);
    }
  }

  /** The number of leading characters of s that are not whitespace. */
  function WordLength(s: string): (n: nat)
    ensures n <= |s|
    ensures NoSpace(s[..n])
    ensures n < |s| ==> IsSpace(s[n])
  {
    if s == [] || IsSpace(s[0]) then 0
    else
      var n := 1 + WordLength(s[1..]);
      assert s[..n] == [s[0]] + s[1..][..n - 1];
      n
  }

  predicate NoSpace(w: string)
  {
    forall i :: 0 <= i < |w| ==> !IsSpace(w[i])
  }

  /** A field of str.split(): non-empty, with no whitespace in it. */
  predicate IsWord(w: string)
  {
    w != [] && NoSpace(w)
  }

  /**
   * str.split() with no argument: the maximal runs of non-whitespace, in order.
   * A line yields no field exactly when it is blank.
   */
  function Fields(s: string): (r: seq<string>)
    ensures forall k :: 0 <= k < |r| ==> IsWord(r[k])
    ensures r == [] <==> IsBlank(s)
    decreases |s|
  {
    if s == [] then []
    else if IsSpace(s[0]) then
      var r := Fields(s[1..]);
      assert IsBlank(s[1..]) ==> IsBlank(s) by {
        if IsBlank(s[1..]) {
          forall i | 0 <= i < |s| ensures IsSpace(s[i]) {
            if i > 0 { assert s[i] == s[1..][i - 1]; }
          }
        }
      }
      r
    else
      var n := WordLength(s);
      [s[..n]] + Fields(s[n..])
  }

  /** Space-separated concatenation of words, the inverse of Fields. */
  function JoinWords(ws: seq<string>): string
  {
    if ws == [] then [] else if |ws| == 1 then ws[0] else ws[0] + " " + JoinWords(ws[1..])
  }

  lemma {:induction false} FieldsOfWord(w: string, rest: string)
    requires IsWord(w)
    requires rest == [] || IsSpace(rest[0])
    ensures Fields(w + rest) == [w] + Fields(rest)
  {
    var s := w + rest;
    WordLengthPrefix(w, rest);
    assert s[..|w|] == w && s[|w|..] == rest;
  }

  /** A first word that ends inside s, or at its end before whitespace, also ends there in s + t. */
  lemma {:induction false} WordLengthPrefix(s: string, t: string)
    requires WordLength(s) < |s| || t == [] || IsSpace(t[0])
    ensures WordLength(s + t) == WordLength(s)
    decreases |s|
  {
    if s == [] {
      assert s + t == t;
    } else if IsSpace(s[0]) {
      assert (s + t)[0] == s[0];
    } else {
      assert (s + t)[0] == s[0] && (s + t)[1..] == s[1..] + t;
      WordLengthPrefix(s[1..], t);
    }
  }


  /** Splitting after joining gives the words back. */
  lemma {:induction false} FieldsJoinWords(ws: seq<string>)
    requires forall k :: 0 <= k < |ws| ==> IsWord(ws[k])
    ensures Fields(JoinWords(ws)) == ws
    decreases |ws|
  {
    if ws == [] {
    } else if |ws| == 1 {
      FieldsOfWord(ws[0], []);
      assert ws[0] + [] == ws[0];
    } else {
      var tail := JoinWords(ws[1..]);
      var gap := " " + tail;
      assert JoinWords(ws) == ws[0] + gap;
      assert Fields(gap) == ws[1..] by {
        FieldsJoinWords(ws[1..]);
        assert gap[0] == ' ' && gap[1..] == tail;
        SpaceFacts();
      }
      assert IsSpace(gap[0]);
      FieldsOfWord(ws[0], gap);
    }
  }



  /** Fields of a concatenation split at whitespace are the fields of the two parts. */
  lemma {:induction false} FieldsAppend(s: string, t: string)
    requires s == [] || IsSpace(s[|s| - 1]) || t == [] || IsSpace(t[0])
    ensures Fields(s + t) == Fields(s) + Fields(t)
    decreases |s|, 1
  {
    if s == [] {
      assert s + t == t;
    } else if IsSpace(s[0]) {
      assert (s + t)[0] == s[0] && (s + t)[1..] == s[1..] + t;
      FieldsAppend(s[1..], t);
      assert Fields(s + t) == Fields(s[1..] + t);
    } else {
      FieldsAppendWord(s, t);
    }
  }

  lemma {:induction false} FieldsAppendWord(s: string, t: string)
    requires s != [] && !IsSpace(s[0])
    requires IsSpace(s[|s| - 1]) || t == [] || IsSpace(t[0])
    ensures Fields(s + t) == Fields(s) + Fields(t)
    decreases |s|, 0
  {
    var n := WordLength(s);
    var w, rest := s[..n], s[n..];
    assert Fields(s + t) == [w] + Fields(rest + t) by {
      assert n < |s| || t == [] || IsSpace(t[0]);
      WordLengthPrefix(s, t);
      SliceAppend(s, t, n);
      assert (s + t)[0] == s[0];
    }
    assert Fields(rest + t) == Fields(rest) + Fields(t) by {
      assert rest == [] || rest[|rest| - 1] == s[|s| - 1];
      FieldsAppend(rest, t);
    }
    assert Fields(s) == [w] + Fields(rest);
    Assoc([w], Fields(rest), Fields(t));
  }

  lemma SliceAppend(s: string, t: string, n: nat)
    requires n <= |s|
    ensures (s + t)[..n] == s[..n] && (s + t)[n..] == s[n..] + t
  {
  }

  lemma Assoc<T>(a: seq<T>, b: seq<T>, c: seq<T>)
    ensures a + b + c == a + (b + c)
  {
  }



  /** Whitespace between two texts separates their fields. */
  lemma FieldsAcrossGap(s: string, gap: string, t: string)
    requires gap != [] && IsBlank(gap)
    ensures Fields(s + gap + t) == Fields(s) + Fields(t)
  {
    assert Fields(s + gap) == Fields(s) by {
      FieldsAppend(s, gap);
      assert Fields(gap) == [];
    }
    assert IsSpace((s + gap)[|s + gap| - 1]) by {
      assert (s + gap)[|s + gap| - 1] == gap[|gap| - 1];
    }
    FieldsAppend(s + gap, t);
  }


  predicate IsDigit(c: char)
  {
    '0' <= c <= '9'
  }

  predicate AllDigits(s: string)
  {
    forall i :: 0 <= i < |s| ==> IsDigit(s[i])
  }

  /** The value of a string of decimal digits, most significant first. */
  function DigitsValue(s: string): nat
    requires AllDigits(s)
  {
    if s == [] then 0
    else 10 * DigitsValue(s[..|s| - 1]) + ((s[|s| - 1] as int) - ('0' as int))
  }

  /** int() on a stripped line: an optional sign, then one or more decimal digits. */
  function ParseInt(s: string): (r: Option<int>)
    ensures r.Some? ==> s != [] && !IsSpace(s[0]) && !IsSpace(s[|s| - 1])
  {
    SpaceFacts();
    if s == [] then None
    else if s[0] == '-' || s[0] == '+' then
      var ds := s[1..];
      if ds != [] && AllDigits(ds) then
        Some(if s[0] == '-' then -(DigitsValue(ds) as int) else DigitsValue(ds))
      else None
    else if AllDigits(s) then Some(DigitsValue(s))
    else None
  }

  /** Python's str() of a non-negative int: decimal, no leading zeros. */
  function NatToString(n: nat): (r: string)
    ensures r != [] && AllDigits(r)
    ensures DigitsValue(r) == n
  {
    var d := ['0' + (n % 10) as char];
    if n < 10 then d
    else
      var r := NatToString(n / 10) + d;
      assert r[..|r| - 1] == NatToString(n / 10);
      r
  }

  /** Python's str() of an int, as an f-string field `{n}` renders it. */
  function IntToString(i: int): (r: string)
    ensures r != [] && NoSpace(r) && NoNewline(r)
  {
    SpaceFacts();
    if i < 0 then "-" + NatToString(-i) else NatToString(i)
  }

  /** Reading back what IntToString rendered gives the same int. */
  lemma ParseIntToString(i: int)
    ensures ParseInt(IntToString(i)) == Some(i)
  {
    if i < 0 {
      assert IntToString(i)[1..] == NatToString(-i);
    }
  }

  /** Each line followed by '\n', as a sequence of write() calls of whole lines produces. */
  function JoinLines(ls: seq<string>): string
  {
    if ls == [] then [] else ls[0] + "\n" + JoinLines(ls[1..])
  }

  lemma {:induction false} JoinLinesAppend(a: seq<string>, b: seq<string>)
    ensures JoinLines(a + b) == JoinLines(a) + JoinLines(b)
    decreases |a|
  {
    if a != [] {
      assert (a + b)[0] == a[0] && (a + b)[1..] == a[1..] + b;
      JoinLinesAppend(a[1..], b);
      calc {
        JoinLines(a + b);
        a[0] + "\n" + JoinLines(a[1..] + b);
        a[0] + "\n" + (JoinLines(a[1..]) + JoinLines(b));
        (a[0] + "\n" + JoinLines(a[1..])) + JoinLines(b);
      }
    } else {
      assert a + b == b;
    }
  }

  predicate NoNewline(l: string)
  {
    forall i :: 0 <= i < |l| ==> l[i] != '\n'
  }

  /**
   * The lines of a text, without their '\n' terminators: a '\n' ends the current line,
   * and a last line with no '\n' after it still counts.
   */
  function SplitLines(s: string): seq<string>
  {
    if s == [] then []
    else if s[0] == '\n' then [[]] + SplitLines(s[1..])
    else PrependChar(s[0], SplitLines(s[1..]))
  }

  /** The lines of c + t: c starts the first line of t, or is a line of its own when t is empty. */
  function PrependChar(c: char, ls: seq<string>): (r: seq<string>)
    ensures |r| == if ls == [] then 1 else |ls|
  {
    if ls == [] then [[c]] else [[c] + ls[0]] + ls[1..]
  }

  /** Putting a character before the lines only touches the first of them. */
  lemma PrependAppend(c: char, la: seq<string>, lb: seq<string>)
    requires la != []
    ensures PrependChar(c, la + lb) == PrependChar(c, la) + lb
  {
    assert (la + lb)[0] == la[0] && (la + lb)[1..] == la[1..] + lb;
  }

  /** Splitting a text made of whole lines gives those lines back. */
  lemma {:induction false} SplitJoinLines(ls: seq<string>)
    requires forall k :: 0 <= k < |ls| ==> NoNewline(ls[k])
    ensures SplitLines(JoinLines(ls)) == ls
    decreases |ls|
  {
    if ls != [] {
      SplitLinesOfLine(ls[0]);
      SplitLinesAppend(ls[0] + "\n", JoinLines(ls[1..]));
      SplitJoinLines(ls[1..]);
    }
  }

  /** One line with its terminator splits into that line. */
  lemma {:induction false} SplitLinesOfLine(t: string)
    requires NoNewline(t)
    ensures SplitLines(t + "\n") == [t]
    decreases |t|
  {
    var s := t + "\n";
    if t == [] {
      assert s[1..] == [];
    } else {
      assert s[0] == t[0] && s[1..] == t[1..] + "\n";
      assert NoNewline(t[1..]) by {
        assert forall i :: 0 <= i < |t| - 1 ==> t[1..][i] == t[i + 1];
      }
      SplitLinesOfLine(t[1..]);
      assert [t[0]] + t[1..] == t;
    }
  }

  lemma NoNewlineAppend(a: string, b: string)
    requires NoNewline(a) && NoNewline(b)
    ensures NoNewline(a + b)
  {
    assert forall i :: |a| <= i < |a + b| ==> (a + b)[i] == b[i - |a|];
  }

  lemma {:induction false} JoinLinesEndsWithNewline(ls: seq<string>)
    ensures JoinLines(ls) == [] || JoinLines(ls)[|JoinLines(ls)| - 1] == '\n'
    decreases |ls|
  {
    if ls != [] {
      JoinLinesEndsWithNewline(ls[1..]);
    }
  }

  /** Splitting a text whose first part ends a line splits the two parts separately. */
  lemma {:induction false} SplitLinesAppend(a: string, b: string)
    requires a == [] || a[|a| - 1] == '\n'
    ensures SplitLines(a + b) == SplitLines(a) + SplitLines(b)
    decreases |a|
  {
    if a == [] {
      assert a + b == b;
    } else {
      var rest := a[1..];
      assert (a + b)[0] == a[0] && (a + b)[1..] == rest + b;
      assert rest == [] || rest[|rest| - 1] == '\n' by {
        if rest != [] {
          assert rest[|rest| - 1] == a[|a| - 1];
        }
      }
      SplitLinesAppend(rest, b);
      if a[0] != '\n' {
        assert rest != [];
        PrependAppend(a[0], SplitLines(rest), SplitLines(b));
      }
    }
  }
}
