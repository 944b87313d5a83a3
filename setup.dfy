/**
 * The version extraction of setup.py: the first line of the metadata file
 * reads `__version__ = '0.0.1'`, and the version is its third
 * whitespace-separated word with the surrounding single quotes stripped
 * (`line.split()[2].strip("'")`).
 */
module Setup {

  /** The characters Python's argument-less `str.split()` treats as whitespace. */
  predicate IsSpace(c: char)
  {
    || '\t' <= c <= '\r'
    || '\U{1c}' <= c <= ' '
    || c == '\U{85}' || c == '\U{a0}' || c == '\U{1680}'
    || '\U{2000}' <= c <= '\U{200a}'
    || c == '\U{2028}' || c == '\U{2029}' || c == '\U{202f}' || c == '\U{205f}' || c == '\U{3000}'
  }

  predicate NoSpace(s: string)
  {
    forall i :: 0 <= i < |s| ==> !IsSpace(s[i])
  }

  /** Length of the word at the start of `s`. */
  function WordLength(s: string): (n: nat)
    ensures n <= |s|
    ensures NoSpace(s[..n])
    ensures n < |s| ==> IsSpace(s[n])
  {
    if s == [] || IsSpace(s[0]) then 0
    else
      var n := 1 + WordLength(s[1..]);
      assert forall i :: 1 <= i < n ==> s[..n][i] == s[1..][..n - 1][i - 1];
      n
  }

  /** `str.split()`: the maximal runs of non-whitespace, in order. */
  function Words(s: string): (ws: seq<string>)
    ensures forall i :: 0 <= i < |ws| ==> ws[i] != [] && NoSpace(ws[i])
    decreases |s|
  {
    if s == [] then []
    else if IsSpace(s[0]) then Words(s[1..])
    else
      var n := WordLength(s);
      [s[..n]] + Words(s[n..])
  }

  predicate IsQuote(c: char) { c == '\'' }

  /** How many quotes `s.lstrip("'")` removes: the quotes at the front, up to the first other character. */
  function LeadingQuotes(s: string): (n: nat)
    ensures n <= |s|
    ensures forall k :: 0 <= k < n ==> IsQuote(s[k])
    ensures n < |s| ==> !IsQuote(s[n])
  {
    if s != [] && IsQuote(s[0]) then
      var n := 1 + LeadingQuotes(s[1..]);
      assert forall k :: 1 <= k < n ==> s[k] == s[1..][k - 1];
      n
    else 0
  }

  /** How many quotes `s.rstrip("'")` removes: the quotes at the back, up to the last other character. */
  function TrailingQuotes(s: string): (n: nat)
    ensures n <= |s|
    ensures forall k :: |s| - n <= k < |s| ==> IsQuote(s[k])
    ensures n < |s| ==> !IsQuote(s[|s| - 1 - n])
  {
    if s != [] && IsQuote(s[|s| - 1]) then
      var n := 1 + TrailingQuotes(s[..|s| - 1]);
      assert forall k :: |s| - n <= k < |s| - 1 ==> s[k] == s[..|s| - 1][k];
      n
    else 0
  }

  /** `r` is the part `s[i..j]` of `s`, and only quotes lie outside it. */
  predicate QuoteFramed(s: string, r: string, i: nat, j: nat)
  {
    && i <= j <= |s| && r == s[i..j]
    && (forall k :: 0 <= k < i ==> IsQuote(s[k]))
    && (forall k :: j <= k < |s| ==> IsQuote(s[k]))
  }

  /**
   * `s.strip("'")`: the leading quotes go, then the trailing quotes of what
   * is left. The result is a middle part of `s`, framed by quotes only, that
   * neither starts nor ends with a quote.
   */
  function StripQuotes(s: string): (r: string)
    ensures exists i: nat, j: nat :: QuoteFramed(s, r, i, j)
    ensures r == [] || (!IsQuote(r[0]) && !IsQuote(r[|r| - 1]))
  {
    var i := LeadingQuotes(s);
    var rest := s[i..];
    var m := TrailingQuotes(rest);
    var j := |s| - m;
    var r := s[i..j];
    assert QuoteFramed(s, r, i, j) by {
      assert forall k :: j <= k < |s| ==> s[k] == rest[k - i];
    }
    assert r == [] || (!IsQuote(r[0]) && !IsQuote(r[|r| - 1])) by {
      assert r == [] || (r[0] == s[i] && r[|r| - 1] == rest[|rest| - 1 - m]);
    }
    r
  }

  /** A slice of a whitespace-free string is whitespace-free. */
  lemma NoSpaceSlice(s: string, i: nat, j: nat)
    requires i <= j <= |s| && NoSpace(s)
    ensures NoSpace(s[i..j])
  {
    assert forall k :: 0 <= k < j - i ==> s[i..j][k] == s[i + k];
  }

  lemma StripQuotesNoSpace(s: string)
    requires NoSpace(s)
    ensures NoSpace(StripQuotes(s))
  {
    var r := StripQuotes(s);
    var i: nat, j: nat :| QuoteFramed(s, r, i, j);
    assert i <= j <= |s|;
    NoSpaceSlice(s, i, j);
  }

  /** The result of evaluating the version expression: the version, or the IndexError of a short line. */
  datatype Extracted = Version(version: string) | IndexError

  /** `line.split()[2].strip("'")`. */
  function ExtractVersion(line: string): (r: Extracted)
    ensures r.IndexError? <==> |Words(line)| < 3
    ensures r.Version? ==> NoSpace(r.version)
    ensures r.Version? ==> r.version == [] || (!IsQuote(r.version[0]) && !IsQuote(r.version[|r.version| - 1]))
  {
    var words := Words(line);
    if |words| < 3 then IndexError
    else
      StripQuotesNoSpace(words[2]);
      Version(StripQuotes(words[2]))
  }

  /** A run of whitespace, possibly empty. */
  predicate Blank(s: string)
  {
    forall i :: 0 <= i < |s| ==> IsSpace(s[i])
  }

  /** The words `ws` laid out with `seps[i]` between `ws[i]` and `ws[i + 1]`. */
  function Layout(ws: seq<string>, seps: seq<string>): string
    requires |ws| >= 1 && |seps| == |ws| - 1
  {
    if |ws| == 1 then ws[0] else ws[0] + seps[0] + Layout(ws[1..], seps[1..])
  }

  /** A word followed by whitespace (or by nothing) is the first word. */
  lemma {:induction false} WordsAfterWord(w: string, rest: string)
    requires w != [] && NoSpace(w)
    requires rest == [] || IsSpace(rest[0])
    ensures Words(w + rest) == [w] + Words(rest)
  {
    WordLengthOf(w, rest);
    assert (w + rest)[..|w|] == w;
    assert (w + rest)[|w|..] == rest;
  }

  lemma {:induction false} WordLengthOf(w: string, rest: string)
    requires NoSpace(w)
    requires rest == [] || IsSpace(rest[0])
    ensures WordLength(w + rest) == |w|
  {
    if w != [] {
      assert (w + rest)[1..] == w[1..] + rest;
      assert NoSpace(w[1..]) by {
        assert forall i :: 0 <= i < |w| - 1 ==> w[1..][i] == w[i + 1];
      }
      WordLengthOf(w[1..], rest);
    } else {
      assert w + rest == rest;
    }
  }

  /** A leading whitespace character adds no word. */
  lemma WordsAfterSpace(c: char, s: string)
    requires IsSpace(c)
    ensures Words([c] + s) == Words(s)
  {
    assert ([c] + s)[1..] == s;
  }

  /** Leading whitespace adds no word. */
  lemma {:induction false} WordsAfterBlank(b: string, s: string)
    requires Blank(b)
    ensures Words(b + s) == Words(s)
  {
    if b != [] {
      assert b + s == [b[0]] + (b[1..] + s);
      WordsAfterSpace(b[0], b[1..] + s);
      assert Blank(b[1..]) by {
        assert forall i :: 0 <= i < |b| - 1 ==> b[1..][i] == b[i + 1];
      }
      WordsAfterBlank(b[1..], s);
    } else {
      assert b + s == s;
    }
  }

  lemma LayoutCons(ws: seq<string>, seps: seq<string>, tail: string)
    requires |ws| >= 2 && |seps| == |ws| - 1
    ensures Layout(ws, seps) + tail == ws[0] + (seps[0] + (Layout(ws[1..], seps[1..]) + tail))
  {
  }

  /** A word, then a non-empty run of whitespace: the word comes first and the run adds nothing. */
  lemma WordsAfterWordAndBlank(w: string, sep: string, more: string, ws: seq<string>, tail: string)
    requires w != [] && NoSpace(w)
    requires sep != [] && Blank(sep)
    requires Words(more) == ws + Words(tail)
    ensures Words(w + (sep + more)) == [w] + ws + Words(tail)
  {
    var rest := sep + more;
    assert rest[0] == sep[0];
    WordsAfterWord(w, rest);
    WordsAfterBlank(sep, more);
  }

  /** The words of a layout alone, as a predicate the induction can carry. */
  predicate WordsLaidOut(ws: seq<string>, seps: seq<string>)
  {
    && |ws| >= 1 && |seps| == |ws| - 1
    && (forall i :: 0 <= i < |ws| ==> ws[i] != [] && NoSpace(ws[i]))
    && (forall i :: 0 <= i < |seps| ==> seps[i] != [] && Blank(seps[i]))
  }

  /**
   * Words separated by non-empty runs of whitespace and followed by
   * whitespace or nothing split back into those words.
   */
  lemma {:induction false} WordsOfLayout(ws: seq<string>, seps: seq<string>, tail: string)
    requires WordsLaidOut(ws, seps)
    requires tail == [] || IsSpace(tail[0])
    ensures Words(Layout(ws, seps) + tail) == ws + Words(tail)
  {
    if |ws| == 1 {
      assert Layout(ws, seps) == ws[0];
      WordsAfterWord(ws[0], tail);
      assert ws == [ws[0]];
    } else {
      var ws', seps' := ws[1..], seps[1..];
      var more := Layout(ws', seps') + tail;
      assert WordsLaidOut(ws', seps') by {
        assert forall i :: 0 <= i < |ws'| ==> ws'[i] == ws[i + 1];
        assert forall i :: 0 <= i < |seps'| ==> seps'[i] == seps[i + 1];
      }
      WordsOfLayout(ws', seps', tail);
      LayoutCons(ws, seps, tail);
      assert ws[0] != [] && NoSpace(ws[0]) && seps[0] != [] && Blank(seps[0]);
      WordsAfterWordAndBlank(ws[0], seps[0], more, ws', tail);
      assert ws == [ws[0]] + ws';
    }
  }

  /**
   * Any line with at least three words, whatever whitespace comes before,
   * between and after them, gives its third word stripped of quotes; the
   * later words are ignored.
   */
  lemma VersionOfWords(lead: string, ws: seq<string>, seps: seq<string>, tail: string)
    requires Blank(lead)
    requires WordsLaidOut(ws, seps) && |ws| >= 3
    requires tail == [] || IsSpace(tail[0])
    ensures ExtractVersion(lead + Layout(ws, seps) + tail) == Version(StripQuotes(ws[2]))
  {
    var body := Layout(ws, seps) + tail;
    WordsOfLayout(ws, seps, tail);
    WordsAfterBlank(lead, body);
    assert lead + Layout(ws, seps) + tail == lead + body;
    assert Words(lead + body)[2] == ws[2];
  }

  /** Quoting a string that neither starts nor ends with a quote, then stripping, gives it back. */
  lemma StripQuotesOfQuoted(v: string)
    requires v == [] || (!IsQuote(v[0]) && !IsQuote(v[|v| - 1]))
    ensures StripQuotes("'" + v + "'") == v
  {
    var q := "'" + v + "'";
    var body := v + "'";
    assert q[0] == '\'' && q[1..] == body;
    if v == [] {
      assert body[1..] == [];
      assert LeadingQuotes(q) == 2;
    } else {
      assert body[0] == v[0];
      assert LeadingQuotes(q) == 1;
      assert body[|body| - 1] == '\'' && body[..|body| - 1] == v;
      assert TrailingQuotes(body) == 1;
      assert q[1..|q| - 1] == v;
    }
  }

  /** The metadata line is the three words `__version__`, `=` and `'<v>'`, one space apart, then a newline. */
  lemma MetadataLayout(v: string)
    requires NoSpace(v)
    ensures WordsLaidOut(["__version__", "=", "'" + v + "'"], [" ", " "])
    ensures Layout(["__version__", "=", "'" + v + "'"], [" ", " "]) + "\n" == "__version__ = '" + v + "'\n"
  {
    var quoted := "'" + v + "'";
    var ws := ["__version__", "=", quoted];
    var sp := " ";
    var seps := [sp, sp];
    assert WordsLaidOut(ws, seps) by {
      assert NoSpace(quoted) by {
        assert forall i :: 1 <= i < |quoted| - 1 ==> quoted[i] == v[i - 1];
      }
      assert NoSpace(ws[0]) && NoSpace(ws[1]) && Blank(sp);
    }
    assert ws[1..] == ["=", quoted] && seps[1..] == [sp];
    assert ws[1..][1..] == [quoted];
    assert Layout(ws[1..][1..], seps[1..][1..]) == quoted;
    assert Layout(ws[1..], seps[1..]) == "=" + sp + quoted;
  }

  /** A metadata line of the form `__version__ = '<v>'` with its newline gives `<v>`. */
  lemma VersionOfMetadataLine(v: string)
    requires NoSpace(v)
    requires v == [] || (!IsQuote(v[0]) && !IsQuote(v[|v| - 1]))
    ensures ExtractVersion("__version__ = '" + v + "'\n") == Version(v)
  {
    var ws := ["__version__", "=", "'" + v + "'"];
    var seps := [" ", " "];
    var empty: string := [];
    var nl := "\n";
    MetadataLayout(v);
    assert empty + Layout(ws, seps) + nl == "__version__ = '" + v + "'\n";
    VersionOfWords(empty, ws, seps, nl);
    StripQuotesOfQuoted(v);
  }

  /** The line the repository ships, `__version__ = '0.0.1'`, gives `0.0.1`. */
  lemma VersionOfShippedLine()
    ensures ExtractVersion("__version__ = '0.0.1'\n") == Version("0.0.1")
  {
    var v := "0.0.1";
    assert NoSpace(v);
    assert !IsQuote(v[0]) && !IsQuote(v[|v| - 1]);
    assert "__version__ = '" + v + "'\n" == "__version__ = '0.0.1'\n";
    VersionOfMetadataLine(v);
  }
}
