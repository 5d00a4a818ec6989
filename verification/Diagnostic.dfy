/** The one line that says why the Executor is not ready. */
module Diagnostic {
  import Utf8

  const MAX_DIAGNOSTIC_BYTES := 1024
  const PREFIX := "flow-executor readiness: "
  const CONTENT_LIMIT := 998
  const UNAVAILABLE := "unavailable"

  /** Unicode's control characters. */
  predicate Control(c: char) {
    c as int < 0x20 || 0x7F <= c as int < 0xA0
  }

  /** Unicode's `White_Space` characters. */
  predicate Whitespace(c: char) {
    || 0x9 <= c as int <= 0xD || c as int in {0x20, 0x85, 0xA0, 0x1680, 0x2028, 0x2029, 0x202F, 0x205F, 0x3000}
    || 0x2000 <= c as int <= 0x200A
  }

  predicate Blank(c: char) {
    Control(c) || Whitespace(c)
  }

  function Bytes(s: string): nat {
    if s == [] then 0 else Bytes(s[..|s| - 1]) + Utf8.CharBytes(s[|s| - 1])
  }

  predicate EndsBlank(s: string) {
    s != [] && Blank(s[|s| - 1])
  }

  /** The text's words, one space between two of them. */
  function Normalised(s: string): string {
    if s == [] then []
    else
      var init, c := s[..|s| - 1], s[|s| - 1];
      var words := Normalised(init);
      if Blank(c) then words
      else if words != [] && EndsBlank(init) then words + [' ', c]
      else words + [c]
  }

  /** Everything but the blank characters. */
  function Solid(s: string): string {
    if s == [] then []
    else Solid(s[..|s| - 1]) + if Blank(s[|s| - 1]) then [] else [s[|s| - 1]]
  }

  /** No leading, trailing or doubled space, and no other blank character. */
  ghost predicate Tidy(s: string) {
    && (s != [] ==> s[0] != ' ' && s[|s| - 1] != ' ')
    && (forall i | 0 <= i < |s| :: s[i] == ' ' || !Blank(s[i]))
    && (forall i | 0 < i < |s| :: s[i - 1] != ' ' || s[i] != ' ')
  }

  lemma SolidJoin(s: string, c: char)
    requires !Blank(c)
    ensures Solid(s + [c]) == Solid(s) + [c] == Solid(s + [' ', c])
  {
    assert (s + [c])[..|s|] == s;
    assert (s + [' '])[..|s|] == s;
    assert (s + [' ', c])[..|s| + 1] == s + [' '];
  }

  lemma TidyJoin(s: string, c: char)
    requires Tidy(s) && !Blank(c)
    ensures Tidy(s + [c]) && (s != [] ==> Tidy(s + [' ', c]))
  {
    assert c != ' ';
  }

  /** What one more character adds. */
  lemma ReadOne(reason: string, i: nat)
    requires i < |reason|
    ensures var words := Normalised(reason[..i]); var c := reason[i];
            EndsBlank(reason[..i + 1]) == Blank(c)
            && Normalised(reason[..i + 1])
               == if Blank(c) then words else if words != [] && EndsBlank(reason[..i]) then words + [' ', c] else words + [c]
  {
    assert reason[..i + 1][..i] == reason[..i];
  }

  /** The normalised text is tidy and keeps every character that is not blank, in order. */
  lemma {:induction false} NormalisedIsTidy(s: string)
    ensures Tidy(Normalised(s)) && Solid(Normalised(s)) == Solid(s)
    decreases |s|
  {
    if s != [] {
      var init, c := s[..|s| - 1], s[|s| - 1];
      NormalisedIsTidy(init);
      if !Blank(c) {
        SolidJoin(Normalised(init), c);
        TidyJoin(Normalised(init), c);
      }
    }
  }

  lemma TidyPrefix(s: string, k: nat)
    requires Tidy(s) && k < |s|
    ensures k > 0 && s[k - 1] != ' ' ==> Tidy(s[..k])
  {
  }

  /** A tidy text whose last character begins a word. */
  lemma NewWord(s: string)
    requires Tidy(s) && |s| > 1 && s[|s| - 2] == ' '
    ensures var t, c := s[..|s| - 2], s[|s| - 1]; Tidy(t) && t != [] && !Blank(c) && s == t + [' ', c]
  {
    assert |s| > 2;
    assert s[|s| - 3] != ' ';
    TidyPrefix(s, |s| - 2);
  }

  /** A tidy text whose last character goes on with a word, or is the first. */
  lemma SameWord(s: string)
    requires Tidy(s) && s != [] && (|s| > 1 ==> s[|s| - 2] != ' ')
    ensures var t, c := s[..|s| - 1], s[|s| - 1]; Tidy(t) && !EndsBlank(t) && !Blank(c) && s == t + [c]
  {
    TidyPrefix(s, |s| - 1);
    assert |s| > 1 ==> !Blank(s[|s| - 2]);
  }

  lemma AddCharacter(t: string, c: char)
    requires Normalised(t) == t && !Blank(c) && !EndsBlank(t)
    ensures Normalised(t + [c]) == t + [c]
  {
    assert (t + [c])[..|t|] == t;
  }

  lemma AddWord(t: string, c: char)
    requires Normalised(t) == t && !Blank(c) && t != []
    ensures Normalised(t + [' ', c]) == t + [' ', c]
  {
    var spaced := t + [' '];
    assert spaced[..|t|] == t && EndsBlank(spaced);
    assert Normalised(spaced) == t;
    assert (t + [' ', c])[..|t| + 1] == spaced;
  }

  /** A tidy text is its own normal form, so normalising twice changes nothing more. */
  lemma {:induction false} TidyUnchanged(s: string)
    requires Tidy(s)
    ensures Normalised(s) == s
    decreases |s|
  {
    if s != [] {
      var k := |s| - 1;
      if k > 0 && s[k - 1] == ' ' {
        NewWord(s);
        TidyUnchanged(s[..k - 1]);
        AddWord(s[..k - 1], s[k]);
      } else {
        SameWord(s);
        TidyUnchanged(s[..k]);
        AddCharacter(s[..k], s[k]);
      }
    }
  }

  /** Words with one more character, which begins a new word if a blank stands before it. */
  function Extended(words: string, spaced: bool, c: char): string {
    if Blank(c) then words else if words != [] && spaced then words + [' ', c] else words + [c]
  }

  lemma NormalisedNext(s: string, c: char)
    ensures Normalised(s + [c]) == Extended(Normalised(s), EndsBlank(s), c) && EndsBlank(s + [c]) == Blank(c)
  {
    assert (s + [c])[..|s|] == s;
  }

  /** Words after words. */
  function Joined(a: string, b: string): string {
    if a == [] then b else if b == [] then a else a + [' '] + b
  }

  lemma JoinedNext(a: string, b: string, spaced: bool, c: char)
    requires b == [] ==> !spaced
    ensures Extended(Joined(a, b), spaced || b == [], c) == Joined(a, Extended(b, spaced, c))
  {
    if !Blank(c) && a != [] && b != [] {
      assert a + [' '] + b + [c] == a + [' '] + (b + [c]);
      assert a + [' '] + b + [' ', c] == a + [' '] + (b + [' ', c]);
    }
  }

  /** Two texts with a blank between them: their words, and one space between the last and the first. */
  lemma {:induction false} BlankSeparates(s: string, blank: char, t: string)
    requires Blank(blank)
    ensures Normalised(s + [blank] + t) == Joined(Normalised(s), Normalised(t))
    ensures EndsBlank(s + [blank] + t) <==> t == [] || EndsBlank(t)
    decreases |t|
  {
    if t == [] {
      assert s + [blank] + t == s + [blank];
      NormalisedNext(s, blank);
    } else {
      var init, c := t[..|t| - 1], t[|t| - 1];
      BlankSeparates(s, blank, init);
      assert t == init + [c] && s + [blank] + t == (s + [blank] + init) + [c];
      NormalisedNext(s + [blank] + init, c);
      NormalisedNext(init, c);
      NothingLeft(init);
      JoinedNext(Normalised(s), Normalised(init), Normalised(init) != [] && EndsBlank(init), c);
    }
  }

  // ----- the longest prefix that fits -----

  /** A beginning of the normalised text that fits and does not end in a space. */
  ghost predicate Fits(content: string, text: string) {
    content <= text && Bytes(content) <= CONTENT_LIMIT && (content != [] ==> content[|content| - 1] != ' ')
  }

  ghost predicate LongestFit(content: string, text: string) {
    Fits(content, text) && forall other | Fits(other, text) :: |other| <= |content|
  }

  lemma BytesJoin(s: string, c: char)
    ensures Bytes(s + [c]) == Bytes(s) + Utf8.CharBytes(c)
  {
    assert (s + [c])[..|s|] == s;
  }

  lemma {:induction false} BytesGrow(s: string, k: nat)
    requires k <= |s|
    ensures Bytes(s[..k]) <= Bytes(s)
    decreases |s|
  {
    if k < |s| {
      var last := |s| - 1;
      BytesGrow(s[..last], k);
      assert s[..last][..k] == s[..k];
    } else {
      assert s[..k] == s;
    }
  }

  lemma {:induction false} AsciiBytes(s: string)
    requires forall i | 0 <= i < |s| :: s[i] as int < 0x80
    ensures Bytes(s) == |s|
    decreases |s|
  {
    if s != [] {
      AsciiBytes(s[..|s| - 1]);
    }
  }

  lemma {:induction false} BytesOfJoin(s: string, t: string)
    ensures Bytes(s + t) == Bytes(s) + Bytes(t)
    decreases |t|
  {
    if t == [] {
      assert s + t == s;
    } else {
      assert (s + t)[..|s + t| - 1] == s + t[..|t| - 1];
      BytesOfJoin(s, t[..|t| - 1]);
    }
  }

  /** More text only adds to its normal form. */
  lemma {:induction false} NormalisedGrows(s: string, k: nat)
    requires k <= |s|
    ensures Normalised(s[..k]) <= Normalised(s)
    decreases |s|
  {
    if k < |s| {
      var last := |s| - 1;
      NormalisedGrows(s[..last], k);
      assert s[..last][..k] == s[..k];
    } else {
      assert s[..k] == s;
    }
  }

  /** When the next character, with its separator, does not fit, nothing longer does. */
  lemma NothingLonger(content: string, next: string, text: string)
    requires content <= next <= text && Bytes(next) > CONTENT_LIMIT && Fits(content, text)
    requires |next| == |content| + 1 || (|next| == |content| + 2 && next[|content|] == ' ')
    ensures LongestFit(content, text)
  {
    forall other | Fits(other, text)
      ensures |other| <= |content|
    {
      if |other| >= |next| {
        assert other[..|next|] == next;
        BytesGrow(other, |next|);
        assert false;
      }
    }
  }

  /** The content after reading the first `i` characters. */
  ghost predicate ReadSoFar(reason: string, i: nat, content: string, pending: bool)
    requires i <= |reason|
  {
    && content == Normalised(reason[..i]) && Bytes(content) <= CONTENT_LIMIT
    && (pending <==> content != [] && EndsBlank(reason[..i]))
  }

  lemma SpacedBytes(content: string, c: char)
    ensures Bytes(content + [' ', c]) == Bytes(content) + 1 + Utf8.CharBytes(c)
  {
    BytesJoin(content, ' ');
    BytesJoin(content + [' '], c);
    assert content + [' '] + [c] == content + [' ', c];
  }

  lemma Stopped(reason: string, i: nat, content: string, pending: bool)
    requires i < |reason| && ReadSoFar(reason, i, content, pending) && !Blank(reason[i])
    requires Bytes(content) + (if pending then 1 else 0) + Utf8.CharBytes(reason[i]) > CONTENT_LIMIT
    ensures LongestFit(content, Normalised(reason))
  {
    ReadOne(reason, i);
    NormalisedGrows(reason, i);
    NormalisedGrows(reason, i + 1);
    NormalisedIsTidy(reason[..i]);
    SpacedBytes(content, reason[i]);
    BytesJoin(content, reason[i]);
    NothingLonger(content, Normalised(reason[..i + 1]), Normalised(reason));
  }

  lemma ReadAll(reason: string, content: string, pending: bool)
    requires ReadSoFar(reason, |reason|, content, pending)
    ensures LongestFit(content, Normalised(reason))
  {
    assert reason[..|reason|] == reason;
    NormalisedIsTidy(reason);
  }

  method Content(reason: string) returns (content: string)
    ensures LongestFit(content, Normalised(reason))
  {
    content := [];
    var pending := false;
    for i := 0 to |reason|
      invariant ReadSoFar(reason, i, content, pending)
    {
      var c := reason[i];
      ReadOne(reason, i);
      if Blank(c) {
        pending := content != [];
        continue;
      }
      var separator := if pending then 1 else 0;
      if Bytes(content) + separator + Utf8.CharBytes(c) > CONTENT_LIMIT {
        Stopped(reason, i, content, pending);
        return;
      }
      SpacedBytes(content, c);
      BytesJoin(content, c);
      if pending {
        content := content + [' ', c];
        pending := false;
      } else {
        content := content + [c];
      }
    }
    ReadAll(reason, content, pending);
  }

  /** A text made of printable ASCII characters only. */
  ghost predicate Ascii(s: string) {
    forall i | 0 <= i < |s| :: s[i] as int < 0x80 && s[i] != '\n'
  }

  lemma PrefixIsAscii()
    ensures Ascii(PREFIX) && |PREFIX| == 25 && Ascii(UNAVAILABLE) && |UNAVAILABLE| == 11
  {
  }

  ghost predicate NoNewline(s: string) {
    forall i | 0 <= i < |s| :: s[i] != '\n'
  }

  lemma OnOneLine(content: string, text: string)
    requires content <= text && Tidy(text)
    ensures NoNewline(content)
  {
    assert forall i | 0 <= i < |content| :: content[i] == text[i];
  }

  lemma LineFits(content: string)
    requires Bytes(content) <= CONTENT_LIMIT && NoNewline(content)
    ensures Bytes(PREFIX + content + "\n") <= MAX_DIAGNOSTIC_BYTES && NoNewline(PREFIX + content)
  {
    PrefixIsAscii();
    LineBytes(content);
  }

  /** One line of at most 1024 bytes: the longest beginning of the normalised reason that fits, or
      "unavailable" if nothing is left of it. */
  method ReadinessDiagnostic(reason: string) returns (line: string, ghost content: string)
    ensures LongestFit(content, Normalised(reason))
    ensures line == PREFIX + (if content == [] then UNAVAILABLE else content) + "\n"
    ensures Bytes(line) <= MAX_DIAGNOSTIC_BYTES
    ensures NoNewline(line[..|line| - 1])
    ensures content == [] <==> forall i | 0 <= i < |reason| :: Blank(reason[i])
    ensures LongestInLine(content, Normalised(reason))
  {
    var shown := Content(reason);
    content := shown;
    NormalisedIsTidy(reason);
    PrefixIsAscii();
    EmptyContent(reason, content);
    OnOneLine(content, Normalised(reason));
    if shown == [] {
      shown := UNAVAILABLE;
      AsciiBytes(UNAVAILABLE);
    }
    LineFits(shown);
    LongestLine(content, Normalised(reason));
    line := PREFIX + shown + "\n";
    assert line[..|line| - 1] == PREFIX + shown;
  }

  /** A content that does not end in a space and makes a line of at most 1024 bytes. */
  ghost predicate InLine(content: string) {
    Bytes(PREFIX + content + "\n") <= 1024 && (content != [] ==> content[|content| - 1] != ' ')
  }

  ghost predicate LongestInLine(content: string, text: string) {
    forall other | other <= text && InLine(other) :: |other| <= |content|
  }

  /** What fits is what fits in a line. */
  lemma LongestLine(content: string, text: string)
    requires LongestFit(content, text)
    ensures LongestInLine(content, text)
  {
    forall other | other <= text && InLine(other)
      ensures |other| <= |content|
    {
      LineBytes(other);
      assert Fits(other, text);
    }
  }

  lemma LineBytes(content: string)
    ensures Bytes(PREFIX + content + "\n") == 26 + Bytes(content)
  {
    PrefixIsAscii();
    AsciiBytes(PREFIX);
    AsciiBytes("\n");
    BytesOfJoin(PREFIX, content);
    BytesOfJoin(PREFIX + content, "\n");
  }

  lemma {:induction false} NothingLeft(s: string)
    ensures Normalised(s) == [] <==> forall i | 0 <= i < |s| :: Blank(s[i])
    decreases |s|
  {
    if s != [] {
      var last := |s| - 1;
      NothingLeft(s[..last]);
      assert forall i | 0 <= i < last :: s[..last][i] == s[i];
    }
  }

  /** Nothing is shown only if there is nothing to show: one character always fits. */
  lemma EmptyContent(reason: string, content: string)
    requires LongestFit(content, Normalised(reason))
    ensures content == [] <==> forall i | 0 <= i < |reason| :: Blank(reason[i])
  {
    NothingLeft(reason);
    var text := Normalised(reason);
    if text != [] {
      NormalisedIsTidy(reason);
      var first := [text[0]];
      BytesJoin([], text[0]);
      assert [] + first == first;
      assert Fits(first, text);
    }
  }

  // ----- bytes -----

  /** What is counted are the bytes of the text in UTF-8. */
  lemma {:induction false} BytesAreUtf8(s: string)
    ensures Bytes(s) == |Utf8.OfText(s)|
  {
    if s != [] {
      BytesAreUtf8(s[1..]);
      assert s == [s[0]] + s[1..] && [] + [s[0]] == [s[0]];
      BytesOfJoin([s[0]], s[1..]);
      BytesJoin([], s[0]);
    }
  }
}
