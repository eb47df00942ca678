/**
 * The translation page script (static/js/script.js): two buttons post the
 * sentence box's value to `/translate` or `/hamnosys`; while the request is
 * outstanding both buttons are disabled and relabelled, and when it settles
 * the result line shows the translation, the HamNoSys string, the service's
 * error or a transport error, and the buttons come back.
 */
module TranslateScript {
  import opened JsString

  const TranslateIdleLabel: string := "Translate to PSL"
  const HamnosysIdleLabel: string := "Fetch HamNoSys"
  const TranslatePendingLabel: string := "Translating..."
  const HamnosysPendingLabel: string := "Fetching..."

  const TranslationPrefix: string := "PSL Translation: "
  const HamnosysPrefix: string := "Hamnosys Representation: "
  const ServiceErrorPrefix: string := "Error: "
  const TransportErrorText: string := "Error occurred while processing."

  const TranslateUrl: string := "/translate"
  const HamnosysUrl: string := "/hamnosys"

  /** The JSON body: `{ sentence: v }` or `{ word: v }`. */
  datatype Body = Sentence(sentence: string) | Word(word: string)

  datatype Request = Request(url: string, body: Body)

  /**
   * A property of the parsed response as JavaScript reads it; numbers are
   * whole numbers here, and an object's own properties are never read.
   */
  datatype JsValue =
    | Undefined
    | Null
    | Bool(b: bool)
    | Num(n: int)
    | Str(s: string)
    | Arr(items: seq<JsValue>)
    | Obj

  /** JavaScript truthiness: every array and object is truthy, even an empty one. */
  predicate Truthy(v: JsValue) {
    match v
    case Undefined => false
    case Null => false
    case Bool(b) => b
    case Num(n) => n != 0
    case Str(s) => s != ""
    case Arr(_) => true
    case Obj => true
  }

  /** What `'...' + v` appends for the value `v`. */
  function Display(v: JsValue): string
    decreases v
  {
    match v
    case Undefined => "undefined"
    case Null => "null"
    case Bool(b) => if b then "true" else "false"
    case Num(n) => IntToString(n)
    case Str(s) => s
    case Arr(items) => DisplayItems(items)
    case Obj => "[object Object]"
  }

  /**
   * `Array.prototype.join(',')`, as an array converts to a string: the
   * elements separated by commas, `null` and `undefined` as empty text.
   */
  function DisplayItems(items: seq<JsValue>): string
    decreases items
  {
    if items == [] then ""
    else
      var first := if items[0].Undefined? || items[0].Null? then "" else Display(items[0]);
      if |items| == 1 then first else first + "," + DisplayItems(items[1..])
  }

  /**
   * An empty array is truthy but shows as empty text, so a translation of
   * `[]` shows the bare prefix; an object shows as `[object Object]`.
   */
  lemma EmptyArrayAndObjectFields(h: JsValue, e: JsValue)
    ensures ResultText(Parsed(Arr([]), h, e)) == TranslationPrefix
    ensures ResultText(Parsed(Null, Obj, e)) == HamnosysPrefix + "[object Object]"
    ensures ResultText(Parsed(Null, Null, Arr([Str("a"), Null, Num(1)]))) == ServiceErrorPrefix + "a,,1"
  {
    assert TranslationPrefix + "" == TranslationPrefix;
    assert Display(Arr([Str("a"), Null, Num(1)])) == "a" + "," + ("" + "," + "1");
  }

  /**
   * How the `fetch` chain can end: the request or `response.json()` is
   * rejected; the body parses to `null` (reading `data.translation` then
   * throws); or the body parses to a value whose three properties are
   * read (a non-object body reads as three `Undefined`s).
   */
  datatype Outcome =
    | Rejected
    | NullBody
    | Parsed(translation: JsValue, hamnosys: JsValue, error: JsValue)

  /** The text the result line shows once the request has settled. */
  function ResultText(o: Outcome): (r: string)
    ensures r == TransportErrorText <==> !o.Parsed?
    ensures HasPrefix(r, TranslationPrefix) <==> o.Parsed? && Truthy(o.translation)
  {
    match o
    case Rejected => ResultForms(""); TransportErrorText
    case NullBody => ResultForms(""); TransportErrorText
    case Parsed(t, h, e) =>
      if Truthy(t) then ResultForms(Display(t)); TranslationPrefix + Display(t)
      else if Truthy(h) then ResultForms(Display(h)); HamnosysPrefix + Display(h)
      else ResultForms(Display(e)); ServiceErrorPrefix + Display(e)
  }

  /**
   * The four forms of the result line are told apart by their first
   * characters: only a translation starts with its prefix, and only a
   * transport failure is the fixed failure text (a service error has a
   * colon after `Error`).
   */
  lemma ResultForms(x: string)
    ensures HasPrefix(TranslationPrefix + x, TranslationPrefix) && TranslationPrefix + x != TransportErrorText
    ensures !HasPrefix(HamnosysPrefix + x, TranslationPrefix) && HamnosysPrefix + x != TransportErrorText
    ensures !HasPrefix(ServiceErrorPrefix + x, TranslationPrefix) && ServiceErrorPrefix + x != TransportErrorText
    ensures !HasPrefix(TransportErrorText, TranslationPrefix)
  {
    PrefixedParts(TranslationPrefix, x);
    assert (TranslationPrefix + x)[0] == 'P';
    assert (HamnosysPrefix + x)[0] == 'H';
    assert (ServiceErrorPrefix + x)[0] == 'E' && (ServiceErrorPrefix + x)[5] == ':';
    assert TransportErrorText[0] == 'E' && TransportErrorText[5] == ' ';
  }

  // ------------------------------------------------- the outcome, normalised

  /** What a request amounted to, independent of how it is shown. */
  datatype Answer =
    | Translated(text: string)
    | Notation(text: string)
    | ServiceError(message: string)
    | TransportError

  /**
   * The answer a settled request stands for: a truthy translation wins, then
   * a truthy HamNoSys string; otherwise the service's `error` (whatever it
   * is); a rejected or `null` response is a transport failure.
   */
  function AnswerOf(o: Outcome): Answer {
    match o
    case Rejected => TransportError
    case NullBody => TransportError
    case Parsed(t, h, e) =>
      if Truthy(t) then Translated(Display(t))
      else if Truthy(h) then Notation(Display(h))
      else ServiceError(Display(e))
  }

  predicate HasPrefix(s: string, p: string) {
    |p| <= |s| && s[..|p|] == p
  }

  /** Reads an answer back from the result line, if it is one of the four forms. */
  function ParseResult(text: string): Option<Answer> {
    if HasPrefix(text, TranslationPrefix) then Some(Translated(text[|TranslationPrefix|..]))
    else if HasPrefix(text, HamnosysPrefix) then Some(Notation(text[|HamnosysPrefix|..]))
    else if text == TransportErrorText then Some(TransportError)
    else if HasPrefix(text, ServiceErrorPrefix) then Some(ServiceError(text[|ServiceErrorPrefix|..]))
    else None
  }

  lemma PrefixedParts(p: string, x: string)
    ensures HasPrefix(p + x, p) && (p + x)[|p|..] == x
  {
    AppendParts(p, x);
  }

  lemma TransportErrorParses()
    ensures ParseResult(TransportErrorText) == Some(TransportError)
  {
    assert TransportErrorText[0] == 'E';
    assert !HasPrefix(TransportErrorText, TranslationPrefix);
    assert !HasPrefix(TransportErrorText, HamnosysPrefix);
  }

  /**
   * The result line always determines what the request amounted to: reading
   * it back gives the answer, payload included. In particular a transport
   * failure is never confused with an error reported by the service (the
   * latter's text has a colon after `Error`).
   */
  lemma ResultTextRoundTrip(o: Outcome)
    ensures ParseResult(ResultText(o)) == Some(AnswerOf(o))
  {
    match o
    case Rejected =>
      TransportErrorParses();
    case NullBody =>
      TransportErrorParses();
    case Parsed(t, h, e) =>
      if Truthy(t) {
        PrefixedParts(TranslationPrefix, Display(t));
      } else if Truthy(h) {
        var s := HamnosysPrefix + Display(h);
        PrefixedParts(HamnosysPrefix, Display(h));
        assert s[0] == 'H';
        assert !HasPrefix(s, TranslationPrefix);
      } else {
        var s := ServiceErrorPrefix + Display(e);
        PrefixedParts(ServiceErrorPrefix, Display(e));
        assert s[0] == 'E' && s[5] == ':';
        assert !HasPrefix(s, TranslationPrefix);
        assert !HasPrefix(s, HamnosysPrefix);
        assert s != TransportErrorText by {
          assert TransportErrorText[5] == ' ';
        }
      }
  }

  /** A truthy translation is shown whatever else the body holds. */
  lemma TranslationTakesPrecedence(t: JsValue, h: JsValue, e: JsValue)
    requires Truthy(t)
    ensures AnswerOf(Parsed(t, h, e)) == Translated(Display(t))
    ensures forall h', e' :: ResultText(Parsed(t, h', e')) == ResultText(Parsed(t, h, e))
  {
  }

  /**
   * The service's `error` is shown only when neither a translation nor a
   * HamNoSys string is; a missing one shows as `Error: undefined`.
   */
  lemma ServiceErrorShownOnlyWithoutResult(o: Outcome)
    ensures AnswerOf(o).ServiceError? <==> o.Parsed? && !Truthy(o.translation) && !Truthy(o.hamnosys)
    ensures o == Parsed(Undefined, Undefined, Undefined) ==> ResultText(o) == "Error: undefined"
  {
  }

  /**
   * The state of the page: the sentence box, the two buttons and the result
   * line, and the request the script is waiting on.
   */
  class Page {
    var sentence: string
    var translateDisabled: bool
    var hamnosysDisabled: bool
    var translateLabel: string
    var hamnosysLabel: string
    var result: string
    var inFlight: Option<Request>

    /** Both buttons usable and showing their own labels; nothing outstanding. */
    predicate Idle()
      reads this
    {
      && !translateDisabled && !hamnosysDisabled
      && translateLabel == TranslateIdleLabel && hamnosysLabel == HamnosysIdleLabel
      && inFlight.None?
    }

    /** Both buttons disabled and showing progress while a request is outstanding. */
    predicate Pending()
      reads this
    {
      && translateDisabled && hamnosysDisabled
      && translateLabel == TranslatePendingLabel && hamnosysLabel == HamnosysPendingLabel
      && inFlight.Some?
    }

    /** The page is always in one of the two states. */
    predicate Valid()
      reads this
    {
      Idle() || Pending()
    }

    /** The page as loaded: empty box, empty result line, buttons enabled. */
    constructor ()
      ensures Idle() && sentence == "" && result == ""
    {
      sentence := "";
      translateDisabled := false;
      hamnosysDisabled := false;
      translateLabel := TranslateIdleLabel;
      hamnosysLabel := HamnosysIdleLabel;
      result := "";
      inFlight := None;
    }

    /** The user edits the sentence box. */
    method Type(v: string)
      modifies this`sentence
      ensures sentence == v
    {
      sentence := v;
    }

    /**
     * `processRequest` up to the `fetch`: both buttons are disabled and
     * relabelled, the result line is cleared and the request is sent.
     */
    method ProcessRequest(url: string, body: Body)
      requires Idle()
      modifies this`translateDisabled, this`hamnosysDisabled, this`translateLabel, this`hamnosysLabel, this`result, this`inFlight
      ensures Pending() && inFlight == Some(Request(url, body))
      ensures result == ""
    {
      translateDisabled := true;
      hamnosysDisabled := true;
      translateLabel := TranslatePendingLabel;
      hamnosysLabel := HamnosysPendingLabel;
      result := "";
      inFlight := Some(Request(url, body));
    }

    /**
     * A click on the translate button: posts `{ sentence }` to `/translate`,
     * unless the button is disabled, when the click does nothing.
     */
    method ClickTranslate()
      requires Valid()
      modifies this`translateDisabled, this`hamnosysDisabled, this`translateLabel, this`hamnosysLabel, this`result, this`inFlight
      ensures old(Idle()) ==> Pending() && inFlight == Some(Request(TranslateUrl, Sentence(sentence))) && result == ""
      ensures old(Pending()) ==> unchanged(this)
      ensures Valid()
    {
      if !translateDisabled {
        ProcessRequest(TranslateUrl, Sentence(sentence));
      }
    }

    /**
     * A click on the HamNoSys button: posts `{ word }`, the same box's value,
     * to `/hamnosys`, unless the button is disabled.
     */
    method ClickHamnosys()
      requires Valid()
      modifies this`translateDisabled, this`hamnosysDisabled, this`translateLabel, this`hamnosysLabel, this`result, this`inFlight
      ensures old(Idle()) ==> Pending() && inFlight == Some(Request(HamnosysUrl, Word(sentence))) && result == ""
      ensures old(Pending()) ==> unchanged(this)
      ensures Valid()
    {
      if !hamnosysDisabled {
        ProcessRequest(HamnosysUrl, Word(sentence));
      }
    }

    /**
     * The outstanding request settles with `o`: the `then`/`catch` handlers
     * write the result line and `finally` restores both buttons.
     */
    method Settle(o: Outcome)
      requires Pending()
      modifies this`translateDisabled, this`hamnosysDisabled, this`translateLabel, this`hamnosysLabel, this`result, this`inFlight
      ensures Idle()
      ensures result == ResultText(o)
      ensures ParseResult(result) == Some(AnswerOf(o))
    {
      match o {
        case Rejected =>
          result := TransportErrorText;
        case NullBody =>
          result := TransportErrorText;
        case Parsed(t, h, e) =>
          if Truthy(t) {
            result := TranslationPrefix + Display(t);
          } else if Truthy(h) {
            result := HamnosysPrefix + Display(h);
          } else {
            result := ServiceErrorPrefix + Display(e);
          }
      }
      translateDisabled := false;
      hamnosysDisabled := false;
      translateLabel := TranslateIdleLabel;
      hamnosysLabel := HamnosysIdleLabel;
      inFlight := None;
      ResultTextRoundTrip(o);
    }
  }
}
