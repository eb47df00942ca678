/**
 * The message box with speech input
 * (signaid-frontend/src/components/consultation/SpeechToText.tsx): each
 * recognition event is split into final and interim text and merged into
 * the box; Send (the button, or Enter without Shift) passes the trimmed text
 * on and clears the box.
 */
module SpeechToText {
  import opened JsString

  /** One entry of `event.results`: its best transcript and whether it is final. */
  datatype RecognitionResult = RecognitionResult(transcript: string, isFinal: bool)

  /** The concatenated transcripts of the results that are final (`final`) or interim (`!final`). */
  function Transcripts(rs: seq<RecognitionResult>, final: bool): string {
    if rs == [] then ""
    else Transcripts(rs[..|rs| - 1], final) + (if rs[|rs| - 1].isFinal == final then rs[|rs| - 1].transcript else "")
  }

  /** Every transcript, in order. */
  function AllText(rs: seq<RecognitionResult>): string {
    if rs == [] then "" else AllText(rs[..|rs| - 1]) + rs[|rs| - 1].transcript
  }

  /** The results the event reports as new: those from `resultIndex` on. */
  function NewResults(results: seq<RecognitionResult>, resultIndex: nat): seq<RecognitionResult> {
    if resultIndex <= |results| then results[resultIndex..] else []
  }

  /**
   * The loop at the top of `onresult`: the new results' transcripts,
   * final ones and interim ones each concatenated in order.
   */
  method CollectTranscripts(results: seq<RecognitionResult>, resultIndex: nat) returns (interimTranscript: string, finalTranscript: string)
    ensures finalTranscript == Transcripts(NewResults(results, resultIndex), true)
    ensures interimTranscript == Transcripts(NewResults(results, resultIndex), false)
    ensures |finalTranscript| + |interimTranscript| == |AllText(NewResults(results, resultIndex))|
  {
    interimTranscript := "";
    finalTranscript := "";
    if resultIndex > |results| {
      return;
    }
    var i := resultIndex;
    while i < |results|
      invariant resultIndex <= i <= |results|
      invariant finalTranscript == Transcripts(results[resultIndex..i], true)
      invariant interimTranscript == Transcripts(results[resultIndex..i], false)
    {
      assert results[resultIndex..i + 1][..i - resultIndex] == results[resultIndex..i];
      var transcript := results[i].transcript;
      if results[i].isFinal {
        finalTranscript := finalTranscript + transcript;
      } else {
        interimTranscript := interimTranscript + transcript;
      }
      i := i + 1;
    }
    assert results[resultIndex..i] == results[resultIndex..];
    TranscriptsPartition(results[resultIndex..]);
  }

  /** Every transcript lands in exactly one of the two strings. */
  lemma {:induction false} TranscriptsPartition(rs: seq<RecognitionResult>)
    ensures |Transcripts(rs, true)| + |Transcripts(rs, false)| == |AllText(rs)|
  {
    if rs != [] {
      TranscriptsPartition(rs[..|rs| - 1]);
    }
  }

  /** The results whose finality is `final`, in their original order. */
  function WithFinality(rs: seq<RecognitionResult>, final: bool): seq<RecognitionResult> {
    Filter(rs, (r: RecognitionResult) => r.isFinal == final)
  }

  lemma AllTextSnoc(rs: seq<RecognitionResult>, x: RecognitionResult)
    ensures AllText(rs + [x]) == AllText(rs) + x.transcript
  {
    assert (rs + [x])[..|rs|] == rs;
  }

  /**
   * Each transcript lands in the text of its own kind, in order: the final
   * text is the transcripts of exactly the final results, and the interim
   * text those of exactly the others.
   */
  lemma {:induction false} TranscriptsAreFiltered(rs: seq<RecognitionResult>, final: bool)
    ensures Transcripts(rs, final) == AllText(WithFinality(rs, final))
  {
    if rs != [] {
      var init, last := rs[..|rs| - 1], rs[|rs| - 1];
      TranscriptsAreFiltered(init, final);
      assert rs == init + [last];
      FilterSnoc(init, last, (r: RecognitionResult) => r.isFinal == final);
      assert Transcripts(rs, final) == Transcripts(init, final) + (if last.isFinal == final then last.transcript else "");
      if last.isFinal == final {
        assert WithFinality(rs, final) == WithFinality(init, final) + [last];
        AllTextSnoc(WithFinality(init, final), last);
      } else {
        assert WithFinality(rs, final) == WithFinality(init, final);
      }
    }
  }

  /** When every new result is final, the final text is all of them in order and there is no interim text. */
  lemma {:induction false} AllFinalTranscripts(rs: seq<RecognitionResult>)
    requires forall i :: 0 <= i < |rs| ==> rs[i].isFinal
    ensures Transcripts(rs, true) == AllText(rs) && Transcripts(rs, false) == ""
  {
    if rs != [] {
      AllFinalTranscripts(rs[..|rs| - 1]);
    }
  }

  /** The text left when the last `' '`-separated word of `trim(prev)` is dropped. */
  function BaseText(prev: string): string {
    Join(DropLast(Split(Trim(prev))))
  }

  /** The box after a recognition event with final text `final` and interim text `interim`. */
  function Merged(prev: string, final: string, interim: string): (r: string)
    ensures final == "" && interim == "" ==> r == prev
    ensures final != "" || interim != "" ==> r != [] && r[|r| - 1] == ' '
  {
    if final != "" then prev + final + " "
    else if interim != "" then
      var base := BaseText(prev);
      if base != "" then base + " " + interim + " " else interim + " "
    else prev
  }

  /**
   * Final text is appended after the previous box with one space, and any
   * interim text in the same event is ignored.
   */
  lemma FinalMerge(prev: string, final: string, interim: string)
    requires final != ""
    ensures var r := Merged(prev, final, interim);
      |r| == |prev| + |final| + 1 && r[..|prev|] == prev && r[|prev|..|prev| + |final|] == final && r[|r| - 1] == ' '
    ensures Merged(prev, final, interim) == Merged(prev, final, "")
  {
    var r := Merged(prev, final, interim);
    assert r == prev + (final + " ");
    AppendParts(prev, final + " ");
  }

  /**
   * Interim text alone replaces the last word of the trimmed box: what
   * remains before the last space of `trim(prev)` is kept, followed by the
   * interim text and a space; with no space left, the box becomes the
   * interim text and a space.
   */
  lemma InterimMerge(prev: string, interim: string)
    requires interim != ""
    ensures var t := Trim(prev);
      Merged(prev, "", interim) == if ' ' in t then t[..LastSpace(t)] + " " + interim + " " else interim + " "
  {
    var t := Trim(prev);
    TrimEnds(prev);
    JoinDropLastSplit(t);
    if ' ' in t {
      assert IsWhitespace(' ');
      assert LastSpace(t) > 0;
    }
  }

  /** An event with neither final nor interim text leaves the box as it was. */
  lemma EmptyEventKeepsText(prev: string)
    ensures Merged(prev, "", "") == prev
  {
  }

  /** Words: non-empty, no whitespace. */
  predicate IsWord(w: string) {
    w != [] && forall i :: 0 <= i < |w| ==> !IsWhitespace(w[i])
  }

  /**
   * Only the last word is replaced, so an interim result of several words
   * that grows between events repeats its first words: `w1 w2` followed by
   * `w1 w2 w3` leaves `w1 w1 w2 w3 ` in the box.
   */
  lemma InterimRepeatsEarlierWords(w1: string, w2: string, w3: string)
    requires IsWord(w1) && IsWord(w2)
    ensures Merged("", "", w1 + " " + w2) == w1 + " " + w2 + " "
    ensures Merged(w1 + " " + w2 + " ", "", w1 + " " + w2 + " " + w3) == w1 + " " + (w1 + " " + w2 + " " + w3) + " "
  {
    InterimMerge("", w1 + " " + w2);
    InterimAfterWords(w1, w2, w1 + " " + w2 + " " + w3);
  }

  /**
   * An interim result that follows final text overwrites the last final
   * word: after `w2` is recognised as final in the box `w1 `, interim text
   * `x` replaces it.
   */
  lemma InterimOverwritesFinalWord(w1: string, w2: string, x: string)
    requires IsWord(w1) && IsWord(w2) && x != ""
    ensures Merged(w1 + " ", w2, "") == w1 + " " + w2 + " "
    ensures Merged(Merged(w1 + " ", w2, ""), "", x) == w1 + " " + x + " "
  {
    InterimAfterWords(w1, w2, x);
  }

  /** Interim text after the box `w1 w2 ` keeps `w1` and replaces `w2`. */
  lemma InterimAfterWords(w1: string, w2: string, interim: string)
    requires interim != "" && IsWord(w1) && IsWord(w2)
    ensures Merged(w1 + " " + w2 + " ", "", interim) == w1 + " " + interim + " "
  {
    var t := w1 + " " + w2;
    TwoWords(w1, w2);
    InterimTrim(t + " ", t);
    InterimMerge(t + " ", interim);
  }

  /** In `w1 w2` the last space is the one after `w1`. */
  lemma TwoWords(w1: string, w2: string)
    requires IsWord(w1) && IsWord(w2)
    ensures var t := w1 + " " + w2;
      && !IsWhitespace(t[0]) && !IsWhitespace(t[|t| - 1])
      && ' ' in t && LastSpace(t) == |w1| && t[..|w1|] == w1
  {
    var t := w1 + " " + w2;
    assert t[|w1|] == ' ';
    assert forall j :: |w1| < j < |t| ==> t[j] == w2[j - |w1| - 1];
    assert IsWhitespace(' ');
    assert t[..|w1|] == w1;
  }

  /** Trimming a word sequence with one trailing space removes only that space. */
  lemma InterimTrim(s: string, t: string)
    requires |t| > 0 && s == t + " "
    requires !IsWhitespace(t[0]) && !IsWhitespace(t[|t| - 1])
    ensures Trim(s) == t
  {
    assert TrimEnd(s) == t by {
      assert s[..|s| - 1] == t;
    }
    TrimOfTrimmed(t);
  }

  /** What the component tells its parent. */
  datatype Signal =
    | Sent(text: string)        // onSend(text)
    | TypingStarted             // onTypingStart()
    | TypingEnded               // onTypingEnd()
    | TypingEndScheduled        // onTypingEnd() after 500 ms

  /** The `inputText` and `isListening` state cells; which optional callbacks were supplied. */
  class SpeechInput {
    const hasTypingStart: bool
    const hasTypingEnd: bool
    var inputText: string
    var isListening: bool

    constructor (hasTypingStart: bool, hasTypingEnd: bool)
      ensures this.hasTypingStart == hasTypingStart && this.hasTypingEnd == hasTypingEnd
      ensures inputText == "" && !isListening
    {
      this.hasTypingStart := hasTypingStart;
      this.hasTypingEnd := hasTypingEnd;
      inputText := "";
      isListening := false;
    }

    /** The send button is disabled exactly while the trimmed box is empty. */
    predicate SendDisabled()
      reads this
      ensures SendDisabled() <==> AllWhitespace(inputText)
    {
      TrimBlank(inputText);
      Trim(inputText) == ""
    }

    function StartSignal(): seq<Signal>
      reads this
    {
      if hasTypingStart then [TypingStarted] else []
    }

    function EndSignal(): seq<Signal>
      reads this
    {
      if hasTypingEnd then [TypingEnded] else []
    }

    /** Recognition started (`onstart`). */
    method OnStart()
      modifies this`isListening
      ensures isListening
    {
      isListening := true;
    }

    /** Recognition ended (`onend`). */
    method OnEnd()
      modifies this`isListening
      ensures !isListening
    {
      isListening := false;
    }

    /** `onresult`. */
    method OnResult(results: seq<RecognitionResult>, resultIndex: nat) returns (signals: seq<Signal>)
      modifies this`inputText
      ensures inputText == Merged(old(inputText),
        Transcripts(NewResults(results, resultIndex), true),
        Transcripts(NewResults(results, resultIndex), false))
      ensures Transcripts(NewResults(results, resultIndex), true) != "" ==>
        signals == StartSignal() + (if hasTypingEnd then [TypingEndScheduled] else [])
      ensures Transcripts(NewResults(results, resultIndex), true) == "" ==>
        signals == if Transcripts(NewResults(results, resultIndex), false) != "" then StartSignal() else []
    {
      var interimTranscript, finalTranscript := CollectTranscripts(results, resultIndex);
      signals := [];
      if finalTranscript != "" {
        inputText := inputText + finalTranscript + " ";
        signals := StartSignal() + (if hasTypingEnd then [TypingEndScheduled] else []);
      } else if interimTranscript != "" {
        var baseText := Join(DropLast(Split(Trim(inputText))));
        inputText := if baseText != "" then baseText + " " + interimTranscript + " " else interimTranscript + " ";
        signals := StartSignal();
      }
    }

    /** `handleInputChange`: the box takes the typed value. */
    method HandleInputChange(v: string) returns (signals: seq<Signal>)
      modifies this`inputText
      ensures inputText == v
      ensures v != "" && !isListening ==> signals == StartSignal()
      ensures v != "" && isListening ==> signals == []
      ensures v == "" ==> signals == EndSignal()
    {
      inputText := v;
      if v != "" && !isListening && hasTypingStart {
        signals := [TypingStarted];
      } else if v == "" && hasTypingEnd {
        signals := [TypingEnded];
      } else {
        signals := [];
      }
    }

    /**
     * `handleSend`: a box that is blank once trimmed changes nothing;
     * otherwise the trimmed text is sent and the box cleared.
     */
    method HandleSend() returns (signals: seq<Signal>)
      modifies this`inputText
      ensures old(SendDisabled()) ==> signals == [] && inputText == old(inputText)
      ensures !old(SendDisabled()) ==> signals == [Sent(Trim(old(inputText)))] + EndSignal() && inputText == ""
      ensures signals != [] ==>
        (signals[0].Sent? && signals[0].text != ""
         && !IsWhitespace(signals[0].text[0]) && !IsWhitespace(signals[0].text[|signals[0].text| - 1]))
    {
      TrimEnds(inputText);
      if Trim(inputText) != "" {
        signals := [Sent(Trim(inputText))] + EndSignal();
        inputText := "";
      } else {
        signals := [];
      }
    }

    /** `handleKeyPress`: Enter without Shift sends (and is not inserted); any other key does nothing here. */
    method HandleKeyPress(key: string, shiftKey: bool) returns (signals: seq<Signal>, preventDefault: bool)
      modifies this`inputText
      ensures preventDefault <==> key == "Enter" && !shiftKey
      ensures !preventDefault ==> signals == [] && inputText == old(inputText)
      ensures preventDefault && old(SendDisabled()) ==> signals == [] && inputText == old(inputText)
      ensures preventDefault && !old(SendDisabled()) ==> signals == [Sent(Trim(old(inputText)))] + EndSignal() && inputText == ""
    {
      if key == "Enter" && !shiftKey {
        preventDefault := true;
        signals := HandleSend();
      } else {
        preventDefault := false;
        signals := [];
      }
    }
  }
}
