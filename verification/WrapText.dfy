/** The line filler of namespaces_of.go. Characters stand for bytes, which is what len() counts. */
module WrapText {

  predicate Blank(c: char) {
    c == ' ' || c == '\t' || c == '\n' || c == '\r' || c == '\U{000B}' || c == '\U{000C}'
  }

  predicate AllBlank(s: string) {
    forall i :: 0 <= i < |s| ==> Blank(s[i])
  }

  predicate IsWord(s: string) {
    s != "" && forall i :: 0 <= i < |s| ==> !Blank(s[i])
  }

  /** The length of the leading run of nonblank characters. */
  function WordEnd(s: string): (j: nat)
    ensures j <= |s| && (forall i :: 0 <= i < j ==> !Blank(s[i])) && (j < |s| ==> Blank(s[j]))
  {
    if s == "" || Blank(s[0]) then 0 else 1 + WordEnd(s[1..])
  }

  /** strings.Fields(). */
  function Fields(s: string): (words: seq<string>)
    ensures forall i :: 0 <= i < |words| ==> IsWord(words[i])
    decreases |s|
  {
    if s == "" then []
    else if Blank(s[0]) then Fields(s[1..])
    else [s[..WordEnd(s)]] + Fields(s[WordEnd(s)..])
  }

  // ---- lines ----

  /** The text of one line. */
  function Line(l: seq<string>): (r: string)
    ensures l == [] ==> r == ""
  {
    if l == [] then "" else if |l| == 1 then l[0] else Line(l[..|l| - 1]) + " " + l[|l| - 1]
  }

  function Flatten(ls: seq<seq<string>>): seq<string> {
    if ls == [] then [] else Flatten(ls[..|ls| - 1]) + ls[|ls| - 1]
  }

  /** Within the width, or a single word that is longer than it. */
  predicate Fits(l: seq<string>, width: int) {
    l != [] && (|Line(l)| <= width || |l| == 1)
  }

  /** The words in their order, on lines that fit. */
  predicate Acceptable(words: seq<string>, ls: seq<seq<string>>, width: int) {
    ls != [] && Flatten(ls) == words && forall i :: 0 <= i < |ls| ==> Fits(ls[i], width)
  }

  /** No line but the last could have taken the next word as well. */
  predicate Filled(ls: seq<seq<string>>, width: int) {
    forall i :: 0 <= i < |ls| - 1 ==> NoRoom(ls, i, width)
  }

  /** Line `i` cannot take the first word of the next line. */
  predicate NoRoom(ls: seq<seq<string>>, i: nat, width: int)
    requires i + 1 < |ls|
  {
    ls[i + 1] != [] && |Line(ls[i] + [ls[i + 1][0]])| > width
  }

  /** Every line indented, newlines in between. */
  function Render(ls: seq<seq<string>>, indent: string): string
    requires ls != []
  {
    var k := |ls| - 1;
    if k == 0 then indent + Line(ls[0]) else Render(ls[..k], indent) + "\n" + indent + Line(ls[k])
  }

  // ---- the program ----

  method Wrap(text: string, width: int, indent: string) returns (result: string, ghost ls: seq<seq<string>>)
    ensures Fields(text) == [] ==> result == ""
    ensures Fields(text) != [] ==>
              Acceptable(Fields(text), ls, width) && Filled(ls, width) && result == Render(ls, indent)
  {
    hide Fields, Fits, Filled, Line;
    var words := Fields(text);
    if |words| == 0 {
      ls := [];
      return "", ls;
    }
    result := indent + words[0];
    var col := |words[0]|;
    ls := [[words[0]]];
    FirstLine(words[0], width, indent);
    assert words[..1] == [words[0]];
    for i := 1 to |words|
      invariant Acceptable(words[..i], ls, width) && Filled(ls, width)
      invariant result == Render(ls, indent) && col == |Line(ls[|ls| - 1])|
    {
      var word := words[i];
      assert words[..i] + [word] == words[..i + 1];
      if col + |word| + 1 > width {
        result := result + "\n" + indent + word;
        col := |word|;
        NewLine(words[..i], ls, width, word, indent);
        ls := ls + [[word]];
      } else {
        result := result + " " + word;
        col := col + 1 + |word|;
        SameLine(words[..i], ls, width, word, indent);
        ls := Lengthened(ls, word);
      }
    }
    assert words[..|words|] == words;
  }

  lemma FirstLine(word: string, width: int, indent: string)
    ensures var ls := [[word]];
      Acceptable([word], ls, width) && Filled(ls, width) && Render(ls, indent) == indent + word && Line(ls[0]) == word
  {
    assert [[word]][..0] == [];
  }

  lemma NewLine(words: seq<string>, ls: seq<seq<string>>, width: int, word: string, indent: string)
    requires Acceptable(words, ls, width) && Filled(ls, width)
    requires |Line(ls[|ls| - 1])| + |word| + 1 > width
    ensures var ls' := ls + [[word]];
      && Acceptable(words + [word], ls', width) && Filled(ls', width)
      && Render(ls', indent) == Render(ls, indent) + "\n" + indent + word && Line(ls'[|ls'| - 1]) == word
  {
    hide Line, Fits, Filled, NoRoom;
    var ls', l := ls + [[word]], ls[|ls| - 1];
    NonemptyLine(ls, width, |ls| - 1);
    assert ls'[..|ls|] == ls;
    OneWord(word, width);
    NoRoomForWord(ls, width, word);
  }

  lemma OneWord(word: string, width: int)
    ensures Line([word]) == word && Fits([word], width)
  {
  }

  lemma NoRoomForWord(ls: seq<seq<string>>, width: int, word: string)
    requires ls != [] && ls[|ls| - 1] != [] && Filled(ls, width)
    requires |Line(ls[|ls| - 1])| + |word| + 1 > width
    ensures Filled(ls + [[word]], width)
  {
    var ls', l := ls + [[word]], ls[|ls| - 1];
    LineExtended(l, word);
    forall i | 0 <= i < |ls'| - 1
      ensures NoRoom(ls', i, width)
    {
      assert i < |ls| - 1 ==> NoRoom(ls, i, width);
    }
  }

  lemma LineExtended(l: seq<string>, word: string)
    requires l != []
    ensures Line(l + [word]) == Line(l) + " " + word
  {
    assert (l + [word])[..|l|] == l;
  }

  /** `ls` with one more word on its last line. */
  function Lengthened(ls: seq<seq<string>>, word: string): seq<seq<string>>
    requires ls != []
  {
    ls[..|ls| - 1] + [ls[|ls| - 1] + [word]]
  }

  lemma SameLine(words: seq<string>, ls: seq<seq<string>>, width: int, word: string, indent: string)
    requires Acceptable(words, ls, width) && Filled(ls, width)
    requires |Line(ls[|ls| - 1])| + |word| + 1 <= width
    ensures var ls' := Lengthened(ls, word);
      && Acceptable(words + [word], ls', width) && Filled(ls', width)
      && Render(ls', indent) == Render(ls, indent) + " " + word
      && Line(ls'[|ls'| - 1]) == Line(ls[|ls| - 1]) + " " + word
  {
    hide Line, Fits, Filled, NoRoom;
    var k := |ls| - 1;
    var l := ls[k];
    var ls' := Lengthened(ls, word);
    NonemptyLine(ls, width, k);
    assert ls'[..k] == ls[..k] && ls'[k] == l + [word];
    FittingLine(l, word, width);
    assert Flatten(ls') == Flatten(ls[..k]) + (l + [word]) == words + [word];
    LengthenedFilled(ls, width, word);
  }

  lemma FittingLine(l: seq<string>, word: string, width: int)
    requires Fits(l, width) && |Line(l)| + |word| + 1 <= width
    ensures Fits(l + [word], width) && Line(l + [word]) == Line(l) + " " + word
  {
    LineExtended(l, word);
  }

  lemma LengthenedFilled(ls: seq<seq<string>>, width: int, word: string)
    requires ls != [] && ls[|ls| - 1] != [] && Filled(ls, width)
    ensures Filled(Lengthened(ls, word), width)
  {
    hide Line;
    var ls' := Lengthened(ls, word);
    forall i | 0 <= i < |ls'| - 1
      ensures NoRoom(ls', i, width)
    {
      assert NoRoom(ls, i, width);
      assert ls'[i] == ls[i] && ls'[i + 1][0] == ls[i + 1][0];
    }
  }

  // ---- no wrapping uses fewer lines ----

  /** A stretch of a line is no longer than the line. */
  lemma {:induction false} StretchIsShorter(l: seq<string>, a: nat, b: nat)
    requires a < b <= |l|
    ensures |Line(l[a..b])| <= |Line(l)|
    decreases |l|
  {
    hide Line;
    var n := |l| - 1;
    if n > 0 {
      assert l == l[..n] + [l[n]];
      LineExtended(l[..n], l[n]);
    }
    if b <= n {
      assert l[..n][a..b] == l[a..b];
      StretchIsShorter(l[..n], a, b);
    } else if a < n {
      assert l[..n][a..n] == l[a..n] && l[a..n] + [l[n]] == l[a..b];
      LineExtended(l[a..n], l[n]);
      StretchIsShorter(l[..n], a, n);
    } else {
      OneWord(l[n], 0);
      assert l[a..b] == [l[n]];
      assert n == 0 ==> l == l[a..b];
    }
  }

  /** How many words the first `k` lines hold. */
  function Held(ls: seq<seq<string>>, k: nat): nat
    requires k <= |ls|
  {
    |Flatten(ls[..k])|
  }

  lemma {:induction false} LineIsSlice(words: seq<string>, ls: seq<seq<string>>, k: nat)
    requires Flatten(ls) == words && k < |ls|
    ensures Held(ls, k) + |ls[k]| == Held(ls, k + 1) <= |words|
    ensures ls[k] == words[Held(ls, k)..Held(ls, k + 1)]
    decreases |ls|
  {
    var n := |ls| - 1;
    assert ls[..k + 1][..k] == ls[..k];
    if k == n {
      assert ls[..k + 1] == ls;
    } else {
      assert ls[..n][..k] == ls[..k] && ls[..n][..k + 1] == ls[..k + 1];
      LineIsSlice(Flatten(ls[..n]), ls[..n], k);
    }
  }

  lemma Overlap(words: seq<string>, a: nat, b: nat, c: nat, d: nat)
    requires a <= b <= c < d <= |words|
    ensures words[b..c] + [words[c]] == words[a..d][b - a..c + 1 - a]
  {
    var l, r := words[b..c] + [words[c]], words[a..d][b - a..c + 1 - a];
    assert |l| == |r|;
    forall i | 0 <= i < |l|
      ensures l[i] == r[i]
    {
      assert r[i] == words[a..d][b - a + i] == words[b + i];
    }
  }

  /** Line for line, a filled wrapping is never behind another acceptable one. */
  lemma {:induction false} StaysAhead(words: seq<string>, ls: seq<seq<string>>, other: seq<seq<string>>,
                                      width: int, k: nat)
    requires Acceptable(words, ls, width) && Filled(ls, width) && Acceptable(words, other, width)
    requires k <= |ls| && k <= |other|
    ensures Held(other, k) <= Held(ls, k)
  {
    hide Line, Flatten, Fits, Filled, NoRoom;
    if k > 0 {
      StaysAhead(words, ls, other, width, k - 1);
      LineIsSlice(words, ls, k - 1);
      LineIsSlice(words, other, k - 1);
      if Held(ls, k) < Held(other, k) {
        LastLineHoldsAll(words, ls, k);
        LineIsSlice(words, ls, k);
        var a, b, c := Held(other, k - 1), Held(ls, k - 1), Held(ls, k);
        NonemptyLine(ls, width, k);
        Overlap(words, a, b, c, Held(other, k));
        assert ls[k][0] == words[c];
        NonemptyLine(ls, width, k - 1);
        TooShort(ls, k - 1, other[k - 1], b - a, c + 1 - a, width);
      }
    }
  }

  lemma NonemptyLine(ls: seq<seq<string>>, width: int, k: nat)
    requires k < |ls| && forall i :: 0 <= i < |ls| ==> Fits(ls[i], width)
    ensures ls[k] != []
  {
  }

  /** A line holding a filled line and one word more does not fit. */
  lemma TooShort(ls: seq<seq<string>>, i: nat, l: seq<string>, a: nat, b: nat, width: int)
    requires Filled(ls, width) && i + 1 < |ls| && ls[i] != [] && ls[i + 1] != []
    requires a < b <= |l| && ls[i] + [ls[i + 1][0]] == l[a..b]
    ensures !Fits(l, width)
  {
    hide Line;
    assert NoRoom(ls, i, width);
    StretchIsShorter(l, a, b);
  }

  lemma LastLineHoldsAll(words: seq<string>, ls: seq<seq<string>>, k: nat)
    requires Flatten(ls) == words && k <= |ls| && Held(ls, k) < |words|
    ensures k < |ls|
  {
    hide Flatten;
    assert ls[..|ls|] == ls;
  }

  lemma FewestLines(words: seq<string>, ls: seq<seq<string>>, other: seq<seq<string>>, width: int)
    requires Acceptable(words, ls, width) && Filled(ls, width) && Acceptable(words, other, width)
    ensures |ls| <= |other|
  {
    hide Line, Filled, Flatten;
    if |other| < |ls| {
      StaysAhead(words, ls, other, width, |other|);
      assert other[..|other|] == other;
      LineIsSlice(words, ls, |other|);
      NonemptyLine(ls, width, |other|);
    }
  }

  // ---- the words survive ----

  /** Text that begins with a blank starts a new field. */
  lemma FieldsAfterBlank(s: string)
    requires s != "" && Blank(s[0])
    ensures Fields(s) == Fields(s[1..])
  {
  }

  lemma FieldsAfterWord(s: string)
    requires s != "" && !Blank(s[0])
    ensures 0 < WordEnd(s) && Fields(s) == [s[..WordEnd(s)]] + Fields(s[WordEnd(s)..])
  {
  }

  lemma {:induction false} FieldsConcat(s: string, t: string)
    requires t == "" || Blank(t[0])
    ensures Fields(s + t) == Fields(s) + Fields(t)
    decreases |s|
  {
    hide WordEnd, Blank, IsWord, Fields;
    if s == "" {
      assert s + t == t;
      NoFields();
    } else if Blank(s[0]) {
      FieldsAfterBlank(s);
      FieldsAfterBlank(s + t);
      assert (s + t)[1..] == s[1..] + t;
      FieldsConcat(s[1..], t);
    } else {
      var j := WordEnd(s);
      SameWordEnd(s, t);
      FieldsAfterWord(s);
      FieldsAfterWord(s + t);
      assert (s + t)[..j] == s[..j] && (s + t)[j..] == s[j..] + t;
      FieldsConcat(s[j..], t);
    }
  }

  lemma NoFields()
    ensures Fields("") == []
  {
  }

  lemma SameWordEnd(s: string, t: string)
    requires t == "" || Blank(t[0])
    ensures WordEnd(s + t) == WordEnd(s)
  {
    var i, j := WordEnd(s + t), WordEnd(s);
    assert forall k :: 0 <= k < |s| ==> (s + t)[k] == s[k];
    assert t != "" ==> (s + t)[|s|] == t[0];
    assert j < |s + t| ==> Blank((s + t)[j]);
    assert forall k :: 0 <= k < j ==> !Blank((s + t)[k]);
  }

  lemma {:induction false} FieldOfWord(blanks: string, word: string)
    requires AllBlank(blanks) && IsWord(word)
    ensures Fields(blanks + word) == [word]
  {
    if blanks == "" {
      assert blanks + word == word && word[..|word|] == word && word[|word|..] == "";
      assert WordEnd(word) == |word|;
    } else {
      assert (blanks + word)[1..] == blanks[1..] + word;
      FieldOfWord(blanks[1..], word);
    }
  }

  lemma {:induction false} FieldsOfLine(indent: string, l: seq<string>)
    requires AllBlank(indent) && l != [] && forall i :: 0 <= i < |l| ==> IsWord(l[i])
    ensures Fields(indent + Line(l)) == l
  {
    var n := |l| - 1;
    if n == 0 {
      FieldOfWord(indent, l[0]);
    } else {
      FieldsOfLine(indent, l[..n]);
      var head := indent + Line(l[..n]);
      assert indent + Line(l) == head + (" " + l[n]);
      FieldsConcat(head, " " + l[n]);
      FieldOfWord(" ", l[n]);
    }
  }

  ghost predicate WordLines(ls: seq<seq<string>>) {
    forall i :: 0 <= i < |ls| ==> ls[i] != [] && forall j :: 0 <= j < |ls[i]| ==> IsWord(ls[i][j])
  }

  /** Splitting the rendered text on white space gives the words back. */
  lemma {:induction false} FieldsOfRender(ls: seq<seq<string>>, indent: string)
    requires ls != [] && WordLines(ls) && AllBlank(indent)
    ensures Fields(Render(ls, indent)) == Flatten(ls)
  {
    var k := |ls| - 1;
    if k == 0 {
      FieldsOfLine(indent, ls[0]);
      assert ls[..0] == [];
    } else {
      FieldsOfRender(ls[..k], indent);
      var head, line := Render(ls[..k], indent), "\n" + indent + Line(ls[k]);
      assert Render(ls, indent) == head + line;
      FieldsConcat(head, line);
      assert line == ("\n" + indent) + Line(ls[k]);
      FieldsOfLine("\n" + indent, ls[k]);
    }
  }

  lemma {:induction false} LinesOfWords(words: seq<string>, ls: seq<seq<string>>, width: int)
    requires Acceptable(words, ls, width) && forall i :: 0 <= i < |words| ==> IsWord(words[i])
    ensures WordLines(ls)
  {
    forall i | 0 <= i < |ls|
      ensures ls[i] != [] && forall j :: 0 <= j < |ls[i]| ==> IsWord(ls[i][j])
    {
      LineIsSlice(words, ls, i);
      assert Fits(ls[i], width);
    }
  }

  /** The whole of what wrapText() promises, for an indent of blanks: the words survive, and no
      acceptable wrapping has fewer lines. */
  lemma WrapExact(text: string, width: int, indent: string, ls: seq<seq<string>>)
    requires AllBlank(indent) && Acceptable(Fields(text), ls, width) && Filled(ls, width)
    ensures Fields(Render(ls, indent)) == Fields(text)
    ensures forall other :: Acceptable(Fields(text), other, width) ==> |ls| <= |other|
  {
    LinesOfWords(Fields(text), ls, width);
    FieldsOfRender(ls, indent);
    forall other | Acceptable(Fields(text), other, width)
      ensures |ls| <= |other|
    {
      FewestLines(Fields(text), ls, other, width);
    }
  }

  // ---- the text, character by character ----

  /** White space in ASCII: the blank, and the characters from tab to carriage return. */
  predicate IsSpace(c: char) {
    c == ' ' || '\t' <= c <= '\r'
  }

  /** The words with a gap before each and one at the end. */
  function Interleaved(words: seq<string>, gaps: seq<string>): string
    requires |gaps| == |words| + 1
  {
    if words == [] then gaps[0] else gaps[0] + words[0] + Interleaved(words[1..], gaps[1..])
  }

  /** The gaps are white space, with none missing between two words, and the words have none. */
  ghost predicate Spelled(s: string, words: seq<string>, gaps: seq<string>) {
    && |gaps| == |words| + 1 && s == Interleaved(words, gaps)
    && (forall i, k | 0 <= i < |gaps| && 0 <= k < |gaps[i]| :: IsSpace(gaps[i][k]))
    && (forall i :: 0 < i < |words| ==> gaps[i] != "")
    && (forall i :: 0 <= i < |words| ==> words[i] != "")
    && (forall i, k | 0 <= i < |words| && 0 <= k < |words[i]| :: !IsSpace(words[i][k]))
  }

  lemma WithBlank(c: char, s: string, words: seq<string>, gaps: seq<string>)
    requires IsSpace(c) && Spelled(s, words, gaps)
    ensures Spelled([c] + s, words, gaps[0 := [c] + gaps[0]])
  {
    var gaps' := gaps[0 := [c] + gaps[0]];
    assert gaps'[1..] == gaps[1..];
  }

  lemma WithWord(word: string, s: string, words: seq<string>, gaps: seq<string>)
    requires Spelled(s, words, gaps) && (words == [] || gaps[0] != "")
    requires word != "" && forall k :: 0 <= k < |word| ==> !IsSpace(word[k])
    ensures Spelled(word + s, [word] + words, [""] + gaps)
  {
    var words', gaps' := [word] + words, [""] + gaps;
    assert words'[1..] == words && gaps'[1..] == gaps;
    assert Interleaved(words', gaps') == "" + word + s;
  }

  /** The fields are the longest runs of characters that are not white space. */
  lemma {:induction false} FieldsExact(s: string) returns (gaps: seq<string>)
    ensures Spelled(s, Fields(s), gaps)
    ensures s != "" && !IsSpace(s[0]) ==> Fields(s) != [] && gaps[0] == ""
    ensures s != "" && IsSpace(s[0]) ==> gaps[0] != ""
    decreases |s|
  {
    hide Spelled, WordEnd, Fields, IsWord;
    if s == "" {
      NoFields();
      gaps := [""];
      assert Spelled("", [], [""]) by { NothingSpelled(); }
    } else if Blank(s[0]) {
      FieldsAfterBlank(s);
      var rest := FieldsExact(s[1..]);
      SpelledGaps(s[1..], Fields(s[1..]), rest);
      gaps := rest[0 := [s[0]] + rest[0]];
      WithBlank(s[0], s[1..], Fields(s[1..]), rest);
      assert [s[0]] + s[1..] == s;
    } else {
      FieldsAfterWord(s);
      var j := WordEnd(s);
      var rest := FieldsExact(s[j..]);
      SpelledGaps(s[j..], Fields(s[j..]), rest);
      gaps := [""] + rest;
      if s[j..] == "" {
        NoFields();
      }
      WithWord(s[..j], s[j..], Fields(s[j..]), rest);
      assert s[..j] + s[j..] == s;
    }
  }

  lemma NothingSpelled()
    ensures Spelled("", [], [""])
  {
  }

  lemma SpelledGaps(s: string, words: seq<string>, gaps: seq<string>)
    requires Spelled(s, words, gaps)
    ensures |gaps| == |words| + 1
  {
  }

  lemma {:induction false} InterleavedAppend(words: seq<string>, gaps: seq<string>, word: string, gap: string)
    requires |gaps| == |words| + 1
    ensures Interleaved(words + [word], gaps + [gap]) == Interleaved(words, gaps) + word + gap
  {
    if words == [] {
      assert (gaps + [gap])[1..] == [gap] && [word][1..] == [];
    } else {
      assert (words + [word])[1..] == words[1..] + [word] && (gaps + [gap])[1..] == gaps[1..] + [gap];
      InterleavedAppend(words[1..], gaps[1..], word, gap);
    }
  }

  /** `first` before the first of `n` texts, `between` before each other one. */
  function Gaps(n: nat, first: string, between: string): seq<string> {
    seq(n + 1, i => if i == 0 then first else if i < n then between else "")
  }

  lemma {:induction false} EndGap(words: seq<string>, gaps: seq<string>, gap: string)
    requires |gaps| == |words| + 1 && gaps[|words|] == ""
    ensures Interleaved(words, gaps[|words| := gap]) == Interleaved(words, gaps) + gap
  {
    var gaps' := gaps[|words| := gap];
    if words != [] {
      assert gaps'[1..] == gaps[1..][|words| - 1 := gap];
      EndGap(words[1..], gaps[1..], gap);
    }
  }

  lemma OneMoreText(texts: seq<string>, text: string, first: string, between: string)
    requires texts != []
    ensures Interleaved(texts + [text], Gaps(|texts| + 1, first, between)) ==
            Interleaved(texts, Gaps(|texts|, first, between)) + between + text
  {
    hide Interleaved, Gaps;
    var n := |texts|;
    var gaps := Gaps(n, first, between);
    MoreGaps(n, first, between);
    EndGap(texts, gaps, between);
    InterleavedAppend(texts, gaps[n := between], text, "");
  }

  lemma MoreGaps(n: nat, first: string, between: string)
    requires n > 0
    ensures |Gaps(n, first, between)| == n + 1 && Gaps(n, first, between)[n] == ""
    ensures Gaps(n + 1, first, between) == Gaps(n, first, between)[n := between] + [""]
  {
  }

  lemma OneText(text: string, first: string, between: string)
    ensures Interleaved([text], Gaps(1, first, between)) == first + text
  {
    assert Gaps(1, first, between)[1..] == [""] && [text][1..] == [];
  }

  /** The words of a line have single blanks between them. */
  lemma {:induction false} LineExact(l: seq<string>)
    requires l != []
    ensures Line(l) == Interleaved(l, Gaps(|l|, "", " "))
  {
    hide Interleaved, Gaps;
    var n := |l| - 1;
    if n == 0 {
      assert l == [l[0]];
      OneText(l[0], "", " ");
    } else {
      LineExact(l[..n]);
      assert l == l[..n] + [l[n]];
      OneMoreText(l[..n], l[n], "", " ");
    }
  }

  /** The lines have the indent before them, and newlines in between. */
  lemma {:induction false} RenderExact(ls: seq<seq<string>>, indent: string)
    requires ls != []
    ensures Render(ls, indent) ==
            Interleaved(seq(|ls|, i requires 0 <= i < |ls| => Line(ls[i])), Gaps(|ls|, indent, "\n" + indent))
  {
    hide Interleaved, Gaps, Line;
    var n := |ls| - 1;
    var texts := seq(|ls|, i requires 0 <= i < |ls| => Line(ls[i]));
    if n == 0 {
      assert texts == [Line(ls[0])];
      OneText(Line(ls[0]), indent, "\n" + indent);
    } else {
      RenderExact(ls[..n], indent);
      assert seq(n, i requires 0 <= i < n => Line(ls[..n][i])) == texts[..n];
      assert texts == texts[..n] + [Line(ls[n])];
      OneMoreText(texts[..n], Line(ls[n]), indent, "\n" + indent);
    }
  }
}
