/** Character and string operations the contact book borrows from Python's
    `str`, restricted to ASCII: `isdigit`, `lower`, `split()`, `sep.join`,
    linear search, and the zero-padded decimal fields of `strftime`. */
module Text {

  // ---------------------------------------------------------------- digits

  predicate IsDigit(c: char) { '0' <= c <= '9' }

  function DigitValue(c: char): (n: nat)
    requires IsDigit(c)
    ensures n < 10
  {
    (c as int - '0' as int) as nat
  }

  function DigitChar(n: nat): (c: char)
    requires n < 10
    ensures IsDigit(c) && DigitValue(c) == n
  {
    ('0' as int + n) as char
  }

  lemma DigitCharOfValue(c: char)
    requires IsDigit(c)
    ensures DigitChar(DigitValue(c)) == c
  {
  }

  /** Every character is a digit, checked one character at a time. */
  predicate AllDigits(s: string)
  {
    s == [] || (IsDigit(s[0]) && AllDigits(s[1..]))
  }

  lemma {:induction false} AllDigitsAt(s: string)
    ensures AllDigits(s) <==> forall i :: 0 <= i < |s| ==> IsDigit(s[i])
  {
    if s != [] {
      AllDigitsAt(s[1..]);
      assert forall i :: 1 <= i < |s| ==> s[i] == s[1..][i - 1];
    }
  }

  /** `str.isdigit`: non-empty, and every character a digit. */
  predicate IsDigits(s: string)
  {
    s != [] && AllDigits(s)
  }

  /** `%02d`: a number below 100 as exactly two digits. */
  function Pad2(n: nat): (s: string)
    requires n < 100
    ensures |s| == 2 && IsDigit(s[0]) && IsDigit(s[1])
    ensures 10 * DigitValue(s[0]) + DigitValue(s[1]) == n
  {
    [DigitChar(n / 10), DigitChar(n % 10)]
  }

  /** `%04d`: a number below 10000 as exactly four digits. */
  function Pad4(n: nat): (s: string)
    requires n < 10000
    ensures |s| == 4 && IsDigit(s[0]) && IsDigit(s[1]) && IsDigit(s[2]) && IsDigit(s[3])
    ensures 1000 * DigitValue(s[0]) + 100 * DigitValue(s[1]) + 10 * DigitValue(s[2]) + DigitValue(s[3]) == n
  {
    var hi, lo := n / 100, n % 100;
    Pad2(hi) + Pad2(lo)
  }

  /** A two-character field is the `%02d` spelling of its decimal value. */
  lemma Pad2OfDigits(f: string)
    requires |f| == 2 && IsDigit(f[0]) && IsDigit(f[1])
    ensures Pad2(10 * DigitValue(f[0]) + DigitValue(f[1])) == f
  {
    var n := 10 * DigitValue(f[0]) + DigitValue(f[1]);
    assert n / 10 == DigitValue(f[0]) && n % 10 == DigitValue(f[1]);
    DigitCharOfValue(f[0]);
    DigitCharOfValue(f[1]);
  }

  /** A four-character field is the `%04d` spelling of its decimal value. */
  lemma Pad4OfDigits(f: string)
    requires |f| == 4 && IsDigit(f[0]) && IsDigit(f[1]) && IsDigit(f[2]) && IsDigit(f[3])
    ensures Pad4(1000 * DigitValue(f[0]) + 100 * DigitValue(f[1]) + 10 * DigitValue(f[2]) + DigitValue(f[3])) == f
  {
    var hi, lo := 10 * DigitValue(f[0]) + DigitValue(f[1]), 10 * DigitValue(f[2]) + DigitValue(f[3]);
    var n := 100 * hi + lo;
    assert n / 100 == hi && n % 100 == lo;
    Pad2OfDigits(f[..2]);
    Pad2OfDigits(f[2..]);
    assert f == f[..2] + f[2..];
  }

  // ------------------------------------------------------------ lower case

  /** `str.lower` on one character (ASCII letters only). */
  function LowerChar(c: char): char
  {
    if 'A' <= c <= 'Z' then (c as int - 'A' as int + 'a' as int) as char else c
  }

  /** `str.lower` on ASCII text: every capital letter moves 32 code points up
      to its small letter, every other character stays. */
  function Lower(s: string): (r: string)
    ensures |r| == |s|
    ensures forall i :: 0 <= i < |r| ==> !('A' <= r[i] <= 'Z')
    ensures forall i :: 0 <= i < |s| && !('A' <= s[i] <= 'Z') ==> r[i] == s[i]
    ensures forall i :: 0 <= i < |s| && 'A' <= s[i] <= 'Z' ==> r[i] as int == s[i] as int + 32
  {
    seq(|s|, i requires 0 <= i < |s| => LowerChar(s[i]))
  }

  /** Lower-casing is idempotent and leaves no upper-case letter. */
  lemma LowerIdempotent(s: string)
    ensures Lower(Lower(s)) == Lower(s)
    ensures forall i :: 0 <= i < |s| ==> !('A' <= Lower(s)[i] <= 'Z')
  {
  }

  /** Names that differ only in the case of ASCII letters lower-case alike. */
  lemma LowerIgnoresCase(a: string, b: string)
    requires |a| == |b|
    requires forall i :: 0 <= i < |a| ==> a[i] == b[i] || LowerChar(a[i]) == b[i] || a[i] == LowerChar(b[i])
    ensures Lower(a) == Lower(b)
  {
    forall i | 0 <= i < |a| ensures Lower(a)[i] == Lower(b)[i] {
      assert LowerChar(LowerChar(a[i])) == LowerChar(a[i]);
      assert LowerChar(LowerChar(b[i])) == LowerChar(b[i]);
    }
  }

  // ---------------------------------------------------------------- search

  /** The index of the first `x` in `s`, or -1 (Python's for-loop with an
      early return, or `str.index` caught). */
  function FirstIndex<T(==)>(s: seq<T>, x: T): (k: int)
    ensures -1 <= k < |s|
    ensures k == -1 <==> x !in s
    ensures 0 <= k ==> s[k] == x && x !in s[..k]
  {
    if s == [] then -1
    else if s[0] == x then 0
    else
      var k := FirstIndex(s[1..], x);
      assert s[1..] == s[1..][..|s| - 1];
      if k == -1 then -1
      else
        assert s[..k + 1] == [s[0]] + s[1..][..k];
        k + 1
  }

  // ------------------------------------------------------------ split/join

  /** The ASCII characters Python's `str.split()` treats as whitespace:
      tab, line feed, vertical tab, form feed, carriage return, the four
      information separators 0x1C-0x1F, and space. */
  predicate IsSpace(c: char)
  {
    9 <= c as int <= 13 || 28 <= c as int <= 31 || c == ' '
  }

  predicate IsWord(w: string)
  {
    w != [] && forall i :: 0 <= i < |w| ==> !IsSpace(w[i])
  }

  /** Length of the run of non-whitespace characters that starts `s`. */
  function WordLength(s: string): (n: nat)
    ensures n <= |s|
    ensures forall i :: 0 <= i < n ==> !IsSpace(s[i])
    ensures n < |s| ==> IsSpace(s[n])
  {
    if s == [] || IsSpace(s[0]) then 0 else 1 + WordLength(s[1..])
  }

  /** `str.split()` with no separator: the maximal runs of non-whitespace. */
  function Split(s: string): (ws: seq<string>)
    ensures forall j :: 0 <= j < |ws| ==> IsWord(ws[j])
    decreases |s|
  {
    if s == [] then []
    else if IsSpace(s[0]) then Split(s[1..])
    else
      var n := WordLength(s);
      [s[..n]] + Split(s[n..])
  }

  /** `sep.join(ss)`. */
  function Join(ss: seq<string>, sep: string): string
  {
    if ss == [] then ""
    else if |ss| == 1 then ss[0]
    else ss[0] + sep + Join(ss[1..], sep)
  }

  lemma {:induction false} SplitSpaceFirst(s: string)
    ensures Split(" " + s) == Split(s)
  {
    assert (" " + s)[1..] == s;
  }

  lemma {:induction false} SplitWordFirst(w: string, rest: string)
    requires IsWord(w)
    requires rest == [] || IsSpace(rest[0])
    ensures Split(w + rest) == [w] + Split(rest)
  {
    var s := w + rest;
    WordLengthOf(w, rest);
    assert s[..|w|] == w && s[|w|..] == rest;
  }

  lemma {:induction false} WordLengthOf(w: string, rest: string)
    requires forall i :: 0 <= i < |w| ==> !IsSpace(w[i])
    requires rest == [] || IsSpace(rest[0])
    ensures WordLength(w + rest) == |w|
    decreases |w|
  {
    if w != [] {
      assert (w + rest)[1..] == w[1..] + rest;
      WordLengthOf(w[1..], rest);
    }
  }

  /** Splitting the words joined by single spaces gives the words back. */
  lemma {:induction false} SplitJoin(ws: seq<string>)
    requires forall j :: 0 <= j < |ws| ==> IsWord(ws[j])
    ensures Split(Join(ws, " ")) == ws
    decreases |ws|
  {
    if ws == [] {
    } else if |ws| == 1 {
      SplitWordFirst(ws[0], "");
      assert ws[0] + "" == ws[0];
    } else {
      var rest := Join(ws[1..], " ");
      assert Join(ws, " ") == ws[0] + (" " + rest);
      SplitWordFirst(ws[0], " " + rest);
      SplitSpaceFirst(rest);
      SplitJoin(ws[1..]);
    }
  }

  /** A string of whitespace only. */
  predicate IsBlank(g: string)
  {
    forall i :: 0 <= i < |g| ==> IsSpace(g[i])
  }

  /** The words `ws` laid out with the strings `gaps` before, between and
      after them: `gaps[0] + ws[0] + gaps[1] + ... + ws[n-1] + gaps[n]`. */
  function Weave(gaps: seq<string>, ws: seq<string>): string
    requires |gaps| == |ws| + 1
    decreases |ws|
  {
    if ws == [] then gaps[0] else gaps[0] + ws[0] + Weave(gaps[1..], ws[1..])
  }

  /** Gaps that may separate words: whitespace only, and the inner ones
      non-empty; the leading and trailing gaps may be empty. */
  predicate Separates(gaps: seq<string>)
  {
    && |gaps| >= 1
    && (forall j :: 0 <= j < |gaps| ==> IsBlank(gaps[j]))
    && (forall j :: 0 < j < |gaps| - 1 ==> gaps[j] != [])
  }

  lemma {:induction false} SplitBlankFirst(g: string, s: string)
    requires IsBlank(g)
    ensures Split(g + s) == Split(s)
    decreases |g|
  {
    if g != [] {
      assert IsSpace(g[0]) && (g + s)[0] == g[0];
      assert Split(g + s) == Split((g + s)[1..]);
      assert (g + s)[1..] == g[1..] + s;
      SplitBlankFirst(g[1..], s);
    } else {
      assert g + s == s;
    }
  }

  /** Words separated by any runs of whitespace, with any whitespace before
      and after, split back into those words. */
  lemma {:induction false} SplitWeave(gaps: seq<string>, ws: seq<string>)
    requires |gaps| == |ws| + 1 && Separates(gaps)
    requires forall j :: 0 <= j < |ws| ==> IsWord(ws[j])
    ensures Split(Weave(gaps, ws)) == ws
    decreases |ws|
  {
    if ws == [] {
      SplitBlankFirst(gaps[0], "");
      assert gaps[0] + "" == gaps[0];
    } else {
      var rest := Weave(gaps[1..], ws[1..]);
      assert Weave(gaps, ws) == gaps[0] + (ws[0] + rest);
      SplitBlankFirst(gaps[0], ws[0] + rest);
      SeparatesTail(gaps);
      WeaveLeadsWithGap(gaps[1..], ws[1..]);
      SplitWordFirst(ws[0], rest);
      SplitWeave(gaps[1..], ws[1..]);
    }
  }

  lemma SeparatesTail(gaps: seq<string>)
    requires Separates(gaps) && |gaps| > 1
    ensures Separates(gaps[1..])
    ensures |gaps| > 2 ==> gaps[1] != []
  {
    assert forall j :: 0 <= j < |gaps| - 1 ==> gaps[1..][j] == gaps[j + 1];
  }

  /** A layout whose leading gap is non-empty, unless no word follows it, is
      empty or starts with whitespace. */
  lemma WeaveLeadsWithGap(gaps: seq<string>, ws: seq<string>)
    requires |gaps| == |ws| + 1 && IsBlank(gaps[0]) && (ws != [] ==> gaps[0] != [])
    ensures Weave(gaps, ws) == [] || IsSpace(Weave(gaps, ws)[0])
  {
    if ws != [] {
      assert Weave(gaps, ws) == gaps[0] + (ws[0] + Weave(gaps[1..], ws[1..]));
    }
  }

  /** Widening the leading gap widens the front of the layout. */
  lemma WeaveWiden(gaps: seq<string>, ws: seq<string>, g: string)
    requires |gaps| == |ws| + 1
    ensures Weave(gaps[0 := g + gaps[0]], ws) == g + Weave(gaps, ws)
  {
    var wide := gaps[0 := g + gaps[0]];
    if ws != [] {
      assert wide[1..] == gaps[1..];
    }
  }

  /** Every string is its words laid out with whitespace gaps, the inner ones
      non-empty: nothing but whitespace is dropped, and nothing is reordered. */
  lemma {:induction false} SplitLayout(s: string) returns (gaps: seq<string>)
    ensures |gaps| == |Split(s)| + 1 && Separates(gaps)
    ensures Weave(gaps, Split(s)) == s
    decreases |s|
  {
    if s == [] {
      gaps := [""];
    } else if IsSpace(s[0]) {
      var tail := SplitLayout(s[1..]);
      gaps := LayoutSpaceFirst(s, tail);
    } else {
      var n := WordLength(s);
      var tail := SplitLayout(s[n..]);
      gaps := LayoutWordFirst(s, n, tail);
    }
  }

  lemma LayoutSpaceFirst(s: string, tail: seq<string>) returns (gaps: seq<string>)
    requires s != [] && IsSpace(s[0])
    requires |tail| == |Split(s[1..])| + 1 && Separates(tail) && Weave(tail, Split(s[1..])) == s[1..]
    ensures |gaps| == |Split(s)| + 1 && Separates(gaps)
    ensures Weave(gaps, Split(s)) == s
  {
    gaps := tail[0 := [s[0]] + tail[0]];
    assert Split(s) == Split(s[1..]);
    WeaveWiden(tail, Split(s), [s[0]]);
    assert s == [s[0]] + s[1..];
  }

  lemma LayoutWordFirst(s: string, n: nat, tail: seq<string>) returns (gaps: seq<string>)
    requires s != [] && !IsSpace(s[0]) && n == WordLength(s)
    requires |tail| == |Split(s[n..])| + 1 && Separates(tail) && Weave(tail, Split(s[n..])) == s[n..]
    ensures |gaps| == |Split(s)| + 1 && Separates(gaps)
    ensures Weave(gaps, Split(s)) == s
  {
    var w := s[..n];
    var more := Split(s[n..]);
    assert Split(s) == [w] + more;
    if more != [] {
      GapBeforeWord(s[n..], tail, more);
    }
    gaps := [""] + tail;
    SeparatesAfterEmpty(tail);
    WeaveWord(tail, w, more);
    assert s == w + s[n..];
  }

  /** A layout of text that starts with whitespace, followed by a word, has
      a non-empty leading gap. */
  lemma GapBeforeWord(t: string, tail: seq<string>, ws: seq<string>)
    requires ws != [] && IsWord(ws[0]) && |tail| == |ws| + 1
    requires Weave(tail, ws) == t && t != [] && IsSpace(t[0])
    ensures tail[0] != []
  {
    assert t == tail[0] + (ws[0] + Weave(tail[1..], ws[1..]));
  }

  lemma SeparatesAfterEmpty(tail: seq<string>)
    requires Separates(tail) && (|tail| > 1 ==> tail[0] != [])
    ensures Separates([""] + tail)
  {
    var gaps := [""] + tail;
    assert forall j :: 0 < j < |gaps| ==> gaps[j] == tail[j - 1];
  }

  lemma WeaveWord(tail: seq<string>, w: string, ws: seq<string>)
    requires |tail| == |ws| + 1
    ensures Weave([""] + tail, [w] + ws) == w + Weave(tail, ws)
  {
    assert ([""] + tail)[1..] == tail && ([w] + ws)[1..] == ws;
    assert "" + w == w;
  }
}
