/**
 * The text-to-SIGML builder (`textToSIGML` in
 * signaid-frontend/src/utils/sigmlUtils.ts): the text is lower-cased, every
 * character that is neither a word character nor whitespace is removed, the
 * rest is split on single spaces, and each non-blank piece becomes one
 * `<sign_manual>` element between `<sigml>` and `</sigml>`.
 */
module Sigml {
  import opened JsString

  const Open: string := "<sigml>"
  const Close: string := "</sigml>"

  /** The characters `/[^\w\s]/g` leaves in place. */
  predicate IsWordOrSpace(c: char) {
    IsWordChar(c) || IsWhitespace(c)
  }

  /** `text.toLowerCase().replace(/[^\w\s]/g, '')`. */
  function Clean(text: string): string {
    Filter(ToLower(text), IsWordOrSpace)
  }

  /** `cleanText.split(' ')`. */
  function Words(text: string): seq<string> {
    Split(Clean(text))
  }

  /** `word.trim() !== ''`. */
  predicate NonBlank(word: string) {
    Trim(word) != ""
  }

  /** The element emitted for one word. */
  function SignFor(word: string): string {
    "<sign_manual><handconfig handshape=\"flat\"/><handlocation location=\"" + word + "\"/></sign_manual>"
  }

  /** The markup accumulated after visiting the words `ws`, starting from `<sigml>`. */
  function Emitted(ws: seq<string>): string {
    if ws == [] then Open
    else Emitted(ws[..|ws| - 1]) + (if NonBlank(ws[|ws| - 1]) then SignFor(ws[|ws| - 1]) else "")
  }

  /** One element per location, in order. */
  function Signs(locations: seq<string>): string {
    if locations == [] then ""
    else Signs(locations[..|locations| - 1]) + SignFor(locations[|locations| - 1])
  }

  /** The locations of the signs: the non-blank words of the cleaned text, in order. */
  function Locations(text: string): seq<string> {
    Filter(Words(text), NonBlank)
  }

  /** The document for `text`: one sign per location between the two tags. */
  function Document(text: string): string {
    Open + Signs(Locations(text)) + Close
  }

  lemma SignsSnoc(ls: seq<string>, x: string)
    ensures Signs(ls + [x]) == Signs(ls) + SignFor(x)
  {
    var ls' := ls + [x];
    assert ls'[..|ls'| - 1] == ls && ls'[|ls'| - 1] == x;
  }

  /** The markup after one more word, in terms of the last word alone. */
  lemma EmittedSnoc(ws: seq<string>)
    requires ws != []
    ensures Emitted(ws) == Emitted(ws[..|ws| - 1]) + (if NonBlank(ws[|ws| - 1]) then SignFor(ws[|ws| - 1]) else "")
  {
  }

  /** The loop emits exactly one element per non-blank word, in order. */
  lemma {:induction false} EmittedIsSigns(ws: seq<string>)
    ensures Emitted(ws) == Open + Signs(Filter(ws, NonBlank))
  {
    if ws != [] {
      var init, last := ws[..|ws| - 1], ws[|ws| - 1];
      assert ws == init + [last];
      EmittedIsSigns(init);
      EmittedSnoc(ws);
      FilterSnoc(init, last, NonBlank);
      var kept := Filter(init, NonBlank);
      if NonBlank(last) {
        SignsSnoc(kept, last);
        AppendAssoc(Open, Signs(kept), SignFor(last));
      } else {
        assert kept + [] == kept;
        assert Emitted(init) + "" == Emitted(init);
      }
    }
  }

  /** One more word visited: its element is appended when it is not blank. */
  lemma EmittedStep(ws: seq<string>, i: nat)
    requires i < |ws|
    ensures Emitted(ws[..i + 1]) == Emitted(ws[..i]) + (if NonBlank(ws[i]) then SignFor(ws[i]) else "")
  {
    assert ws[..i + 1][..i] == ws[..i];
  }

  /** The whole document is the markup of every word followed by the closing tag. */
  lemma EmittedDocument(text: string)
    ensures Emitted(Words(text)) + Close == Document(text)
    ensures |Document(text)| >= |Open| + |Close|
    ensures Document(text)[..|Open|] == Open
    ensures Document(text)[|Document(text)| - |Close|..] == Close
  {
    var signs := Signs(Locations(text));
    EmittedIsSigns(Words(text));
    AppendAssoc(Open, signs, Close);
    AppendParts(Open, signs + Close);
    AppendParts(Open + signs, Close);
  }

  /** `textToSIGML`. */
  method TextToSigml(text: string) returns (sigml: string)
    ensures sigml == Document(text)
    ensures |sigml| >= |Open| + |Close|
    ensures sigml[..|Open|] == Open && sigml[|sigml| - |Close|..] == Close
  {
    var cleanText := Clean(text);
    var words := Split(cleanText);
    sigml := Open;
    var i := 0;
    while i < |words|
      invariant 0 <= i <= |words|
      invariant sigml == Emitted(words[..i])
    {
      var word := words[i];
      EmittedStep(words, i);
      if Trim(word) != "" {
        sigml := sigml + SignFor(word);
      }
      i := i + 1;
    }
    assert words[..i] == words;
    sigml := sigml + Close;
    EmittedDocument(text);
  }

  // ------------------------------------------------------------ properties

  lemma CleanConcat(a: string, b: string)
    ensures Clean(a + b) == Clean(a) + Clean(b)
  {
    ToLowerConcat(a, b);
    FilterConcat(ToLower(a), ToLower(b), IsWordOrSpace);
  }

  lemma CleanSpace()
    ensures Clean(" ") == " "
  {
    assert ToLower(" ") == " ";
  }

  lemma CleanAroundSpace(a: string, b: string)
    ensures Clean(a + " " + b) == Clean(a) + " " + Clean(b)
  {
    CleanSpace();
    CleanConcat(a + " ", b);
    CleanConcat(a, " ");
  }

  lemma CleanAroundSpaces(a: string, b: string)
    ensures Clean(a + " " + b) == Clean(a) + " " + Clean(b)
    ensures Clean(a + "  " + b) == Clean(a) + " " + (" " + Clean(b))
  {
    CleanAroundSpace(a, b);
    assert a + "  " + b == a + " " + (" " + b);
    CleanAroundSpace(a, " " + b);
    CleanSpace();
    CleanConcat(" ", b);
  }

  /** A second space adds one empty piece. */
  lemma SplitSpaceRun(ca: string, cb: string)
    ensures Split(ca + " " + (" " + cb)) == Split(ca) + ([""] + Split(cb))
  {
    SplitAtSpace(ca, " " + cb);
    var sb := " " + cb;
    assert sb[0] == ' ' && sb[1..] == cb;
  }

  /** The empty piece is blank, so the filter drops it. */
  lemma BlankPieceDropped(a: seq<string>, b: seq<string>)
    ensures Filter(a + ([""] + b), NonBlank) == Filter(a + b, NonBlank)
  {
    FilterConcat(a, [""] + b, NonBlank);
    FilterConcat([""], b, NonBlank);
    assert !NonBlank("");
    assert Filter([""], NonBlank) == [];
    FilterConcat(a, b, NonBlank);
  }

  /** The empty piece a second space produces is blank and dropped. */
  lemma SpaceRunPieces(ca: string, cb: string)
    ensures Filter(Split(ca + " " + (" " + cb)), NonBlank) == Filter(Split(ca + " " + cb), NonBlank)
  {
    SplitSpaceRun(ca, cb);
    SplitAtSpace(ca, cb);
    BlankPieceDropped(Split(ca), Split(cb));
  }

  /** A run of spaces separates words like a single space: the extra pieces are blank. */
  lemma SpaceRunsAddNothing(a: string, b: string)
    ensures Document(a + "  " + b) == Document(a + " " + b)
  {
    CleanAroundSpaces(a, b);
    SpaceRunPieces(Clean(a), Clean(b));
  }

  /** When the cleaned text is blank, no sign is emitted. */
  lemma BlankYieldsEmptyDocument(text: string)
    requires AllWhitespace(Clean(text))
    ensures Document(text) == Open + Close
  {
    var ws := Words(text);
    SplitKeepsProperty(Clean(text), IsWhitespace);
    forall i | 0 <= i < |ws|
      ensures !NonBlank(ws[i])
    {
      assert AllWhitespace(ws[i]);
      TrimBlank(ws[i]);
    }
    FilterNone(ws, NonBlank);
  }

  /**
   * Text made only of characters that are neither word characters nor
   * whitespace (and that are not one of the two capitals whose lower case
   * is an ASCII letter) yields the empty document.
   */
  lemma PunctuationOnlyYieldsEmptyDocument(text: string)
    requires forall i :: 0 <= i < |text| ==> !IsWordOrSpace(text[i]) && text[i] != KelvinSign && text[i] != CapitalIWithDot
    ensures Document(text) == Open + Close
  {
    ToLowerFixed(text);
    FilterNone(text, IsWordOrSpace);
    BlankYieldsEmptyDocument(text);
  }

  /** Case insensitivity: lower-casing the text first changes nothing. */
  lemma CaseInsensitive(text: string)
    ensures Document(ToLower(text)) == Document(text)
  {
    ToLowerIdempotent(text);
  }

  /** The text without the characters that are neither word characters nor whitespace. */
  function StripPunctuation(text: string): string {
    Filter(text, IsWordOrSpace)
  }

  lemma {:induction false} CleanOfStripped(text: string)
    requires forall i :: 0 <= i < |text| ==> text[i] != KelvinSign && text[i] != CapitalIWithDot
    ensures Clean(StripPunctuation(text)) == Clean(text)
  {
    if text != [] {
      var c, rest := text[0], text[1..];
      assert text == [c] + rest;
      CleanOfStripped(rest);
      FilterConcat([c], rest, IsWordOrSpace);
      CleanConcat([c], rest);
      if IsWordOrSpace(c) {
        assert Filter([c], IsWordOrSpace) == [c];
        CleanConcat([c], StripPunctuation(rest));
      } else {
        assert Filter([c], IsWordOrSpace) == [];
        assert ToLower([c]) == [c];
        assert Clean([c]) == [];
      }
    }
  }

  /**
   * Punctuation insensitivity: removing the characters that are neither
   * word characters nor whitespace does not change the document, for text
   * without U+212A and U+0130.
   */
  lemma PunctuationInsensitive(text: string)
    requires forall i :: 0 <= i < |text| ==> text[i] != KelvinSign && text[i] != CapitalIWithDot
    ensures Document(StripPunctuation(text)) == Document(text)
  {
    CleanOfStripped(text);
  }

  /**
   * The exception: U+212A (KELVIN SIGN) is not a word character, but its
   * lower case `k` is, so stripping it first loses a sign.
   */
  lemma KelvinSignIsNotPunctuation()
    ensures Document([KelvinSign]) != Document(StripPunctuation([KelvinSign]))
  {
    assert StripPunctuation([KelvinSign]) == [];
    assert Clean([]) == [];
    assert Split([]) == [""];
    assert Filter([""], NonBlank) == [];
    assert ToLower([KelvinSign]) == "k";
    assert Clean([KelvinSign]) == "k";
    assert Split("k") == ["k"];
    TrimOfTrimmed("k");
    assert Locations([KelvinSign]) == ["k"];
  }

  /** The characters a `location` attribute can hold. */
  predicate IsLocationChar(c: char) {
    ('a' <= c <= 'z') || IsDigit(c) || c == '_' || (IsWhitespace(c) && c != ' ')
  }

  /** A lower-case word character or whitespace. */
  predicate IsCleanChar(c: char) {
    IsWordOrSpace(c) && !('A' <= c <= 'Z')
  }

  /** A word made of location characters. */
  predicate IsLocationWord(w: string) {
    forall j :: 0 <= j < |w| ==> IsLocationChar(w[j])
  }

  /** The cleaned text holds only lower-case word characters and whitespace. */
  lemma CleanChars(text: string)
    ensures forall i :: 0 <= i < |Clean(text)| ==> IsCleanChar(Clean(text)[i])
  {
    var l := ToLower(text);
    ToLowerIsLower(text);
    FilterSatisfies(l, IsWordOrSpace);
    FilterKeeps(l, IsWordOrSpace, (c: char) => !('A' <= c <= 'Z'));
  }

  /** Every word of the cleaned text is made of location characters. */
  lemma WordChars(text: string)
    ensures forall k :: 0 <= k < |Words(text)| ==> IsLocationWord(Words(text)[k])
  {
    var s := Clean(text);
    CleanChars(text);
    SplitKeepsProperty(s, IsCleanChar);
    SplitPiecesHaveNoSpace(s);
  }

  /**
   * Every location consists of lower-case letters, digits, `_` and
   * whitespace other than the plain space.
   */
  lemma LocationChars(text: string)
    ensures forall k :: 0 <= k < |Locations(text)| ==> IsLocationWord(Locations(text)[k])
  {
    WordChars(text);
    FilterKeeps(Words(text), NonBlank, IsLocationWord);
  }

  /** A word of location characters holds no `"`, `<` or `>`. */
  lemma LocationWordIsSafe(w: string)
    requires IsLocationWord(w)
    ensures '"' !in w && '<' !in w && '>' !in w
  {
    forall j | 0 <= j < |w|
      ensures w[j] != '"' && w[j] != '<' && w[j] != '>'
    {
      assert IsLocationChar(w[j]);
    }
  }

  /**
   * No location holds `"`, `<` or `>`, so the emitted markup stays well
   * formed.
   */
  lemma LocationsWellFormed(text: string)
    ensures forall k :: 0 <= k < |Locations(text)| ==>
      '"' !in Locations(text)[k] && '<' !in Locations(text)[k] && '>' !in Locations(text)[k]
  {
    var ls := Locations(text);
    LocationChars(text);
    forall k | 0 <= k < |ls|
      ensures '"' !in ls[k] && '<' !in ls[k] && '>' !in ls[k]
    {
      LocationWordIsSafe(ls[k]);
    }
  }
}
