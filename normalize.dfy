/**
 * Post-processing of the language model's answer to a document
 * extraction: the answer is cleaned of a "json" prefix, decoded, checked
 * for the two top-level keys of the document kind, and every string in
 * it is normalised (null words to None, digit strings to integers,
 * decimal strings to floats).
 *
 * The two extraction services (return slips and delivery notes) share
 * this logic and differ only in the header key they demand.
 */
module Normalize {
  import opened Wrappers
  import opened PyText
  import opened PyJson

  /** `s.strip().lower() in {"null", "none", ""}` */
  predicate IsNullWord(s: string) {
    var w := Lower(Strip(s));
    w == "null" || w == "none" || w == ""
  }

  /** A string that `conv` keeps as a string. */
  predicate IsPlainText(s: string) {
    !IsNullWord(s) && !AllDigits(s) && !IsFloatLiteral(s)
  }

  /** Every string inside the value, at any depth, is plain text. */
  predicate IsNormal(v: Value) {
    match v
    case Str(s) => IsPlainText(s)
    case Arr(items) => forall i :: 0 <= i < |items| ==> IsNormal(items[i])
    case Obj(fields) => forall i :: 0 <= i < |fields| ==> IsNormal(fields[i].val)
    case _ => true
  }

  /** `conv` applied to one string. */
  function ConvText(s: string): (r: Value)
    ensures IsNormal(r)
    ensures r.Str? ==> r.s == s
    ensures r == Null <==> IsNullWord(s)
  {
    if IsNullWord(s) then Null
    else if AllDigits(s) then Int(DigitsValue(s))
    else if IsFloatLiteral(s) then Float(s)
    else Str(s)
  }

  /**
   * `normalizar_tipos`: strings are converted, lists and objects are
   * converted element by element, everything else is left as it is.
   * The result is normal and has the shape of the input: the same
   * kind, the same length, the same keys in the same order.
   */
  function Conv(v: Value): (r: Value)
    ensures IsNormal(r)
    ensures v.Arr? <==> r.Arr?
    ensures v.Arr? ==> |r.items| == |v.items|
    ensures v.Obj? <==> r.Obj?
    ensures v.Obj? ==> |r.fields| == |v.fields|
    ensures v.Obj? ==> forall i :: 0 <= i < |v.fields| ==> r.fields[i].key == v.fields[i].key
    ensures !v.Str? && !v.Arr? && !v.Obj? ==> r == v
  {
    match v
    case Str(s) => ConvText(s)
    case Arr(items) =>
      var out := seq(|items|, i requires 0 <= i < |items| => Conv(items[i]));
      assert forall i :: 0 <= i < |items| ==> IsNormal(out[i]);
      Arr(out)
    case Obj(fields) =>
      var out := seq(|fields|, i requires 0 <= i < |fields| => Field(fields[i].key, Conv(fields[i].val)));
      assert forall i :: 0 <= i < |fields| ==> IsNormal(out[i].val);
      Obj(out)
    case _ => v
  }

  /** A value that is already normal is left unchanged. */
  lemma {:induction false} NormalIsFixed(v: Value)
    requires IsNormal(v)
    ensures Conv(v) == v
  {
    match v
    case Str(s) =>
    case Arr(items) =>
      forall i | 0 <= i < |items| ensures Conv(items[i]) == items[i] {
        NormalIsFixed(items[i]);
      }
      assert Conv(v).items == items;
    case Obj(fields) =>
      forall i | 0 <= i < |fields| ensures Conv(fields[i].val) == fields[i].val {
        NormalIsFixed(fields[i].val);
      }
      assert Conv(v).fields == fields;
    case _ =>
  }

  /** Normalising twice is normalising once. */
  lemma ConvIdempotent(v: Value)
    ensures Conv(Conv(v)) == Conv(v)
  {
    NormalIsFixed(Conv(v));
  }

  /** Converting an object and then reading a key is reading the key and converting. */
  lemma {:induction false} ConvGet(fields: seq<Field>, key: string)
    ensures Conv(Obj(fields)).Obj?
    ensures Get(Conv(Obj(fields)).fields, key) ==
      match Get(fields, key) case None => None case Some(x) => Some(Conv(x))
    decreases |fields|
  {
    var out := Conv(Obj(fields)).fields;
    if fields != [] {
      var n := |fields| - 1;
      var front := fields[..n];
      assert Conv(Obj(front)).fields == out[..n];
      ConvGet(front, key);
    }
  }

  /** A digit string becomes an integer. */
  lemma ConvDigitString()
    ensures Conv(Str("12")) == Int(12)
  {
    StripFixed("12");
    assert Lower("12") == "12";
    assert !IsNullWord("12");
    assert AllDigits("12");
    assert "12"[..1] == "1" && "1"[..0] == "";
    assert DigitsValue("12") == 12;
    assert ConvText("12") == Int(12);
  }

  /** A null word, in any letter case and with spaces around it, becomes None. */
  lemma ConvNullWord()
    ensures Conv(Str(" NULL ")) == Null
  {
    assert Strip(" NULL ") == "NULL" by {
      assert " NULL " == " " + "NULL" + " ";
      StripPadded(" ", "NULL", " ");
    }
    assert Lower("NULL") == "null";
    assert IsNullWord(" NULL ");
  }

  lemma PaddedTwelveStrips()
    ensures Strip(" 12") == "12"
  {
    assert " 12" == " " + "12" + "";
    StripPadded(" ", "12", "");
  }

  /** `isdigit` looks at the unstripped string, so a padded number becomes a float. */
  lemma ConvPaddedNumber()
    ensures Conv(Str(" 12")) == Float(" 12")
  {
    PaddedTwelveStrips();
    assert Lower("12") == "12";
    assert !AllDigits(" 12") by { assert !IsDigit(" 12"[0]); }
    UnsignedDigits("12");
    DigitsAreGroups("12");
    IntStringIsFloat(" 12");
  }

  /** A decimal comma is not a float literal: the string is kept. */
  lemma ConvDecimalComma()
    ensures Conv(Str("12,5")) == Str("12,5")
  {
    var s := "12,5";
    StripFixed(s);
    assert Lower(s) == s;
    assert !AllDigits(s) by { assert !IsDigit(s[2]); }
    CommaIsNoFloat();
  }

  /** `float("12,5")` raises. */
  lemma CommaIsNoFloat()
    ensures !IsFloatLiteral("12,5")
  {
    var s := "12,5";
    StripFixed(s);
    UnsignedDigits(s);
    NotSpecialWord(s);
    assert forall j :: 0 <= j < |s| ==> s[j] !in {'e', 'E'} && s[j] !in {'.'};
    assert s[..3] == "12," && "12,"[..2] == "12";
    assert !DigitGroups(s);
    assert Numeral(s) == None;
  }

  /**
   * A digit-free spelling that is not a null word still converts when
   * `float()` reads it: an infinity or NaN in any letter case.
   */
  lemma ConvSpecialWords(s: string)
    requires Lower(Unsigned(Strip(s))) in {"nan", "inf", "infinity"}
    ensures Conv(Str(s)) == Float(s)
  {
    var t := Strip(s);
    var u := Unsigned(t);
    FloatSpecialWords(s);
    assert |u| >= 3;
    if |t| > 0 && (t[0] == '+' || t[0] == '-') {
      assert Lower(t)[0] == t[0];
    } else {
      assert u == t;
    }
  }

  /** A number with an exponent converts to a float, not an integer. */
  lemma ConvExponent(a: string, b: string)
    requires AllDigits(a) && AllDigits(b)
    ensures Conv(Str(a + "e" + b)) == Float(a + "e" + b)
  {
    var s := a + "e" + b;
    FloatWithExponent(a, b);
    assert s[0] == a[0] && !IsDigit(s[|a|]);
    NotNullWord(s);
  }

  /** A number with a fractional part converts to a float. */
  lemma ConvPoint(a: string, b: string)
    requires AllDigits(a) && AllDigits(b)
    ensures Conv(Str(a + "." + b)) == Float(a + "." + b)
  {
    var s := a + "." + b;
    FloatWithPoint(a, b);
    assert s[0] == a[0] && !IsDigit(s[|a|]);
    NotNullWord(s);
  }

  /** A string that starts with a digit is no null word. */
  lemma NotNullWord(s: string)
    requires |s| > 0 && IsDigit(s[0])
    ensures !IsNullWord(s)
  {
    var t := Strip(s);
    assert SkipSpaces(s, 0) == 0 && s[0..] == s;
    assert TrimEnd(s, |s|) >= 1;
    assert t[0] == s[0];
    LowerIsLower(t, "null");
    LowerIsLower(t, "none");
  }

  /**
   * The regular-expression clean-up of the answer: a leading "json"
   * (in any letter case) is dropped, then surrounding whitespace.
   */
  function CleanResponse(s: string): (r: string)
    ensures r == Strip(r)
    ensures |r| <= |s|
  {
    var body := if |s| >= 4 && Lower(s[..4]) == "json" then s[4..] else s;
    StripIdempotent(body);
    Strip(body)
  }

  /** An answer that is a bare JSON object reaches the decoder untouched. */
  lemma CleanKeepsObject(s: string)
    requires |s| >= 2 && s[0] == '{' && s[|s| - 1] == '}'
    ensures CleanResponse(s) == s
  {
    if |s| >= 4 {
      assert Lower(s[..4])[0] == '{';
    }
    StripFixed(s);
  }

  /** A "json" label in front of the object, in any letter case, is dropped. */
  lemma CleanDropsLabel(s: string)
    requires |s| >= 2 && s[0] == '{' && s[|s| - 1] == '}'
    ensures CleanResponse("JSON\n" + s) == s
  {
    var a := "JSON\n" + s;
    assert a[..4] == "JSON" && a[4..] == "\n" + s;
    assert Lower("JSON") == "json";
    assert a[4..] == "\n" + s + "";
    StripPadded("\n", s, "");
  }

  datatype ParseError =
    | NotJson        // json.loads failed
    | MissingKeys    // not an object, or a required key is absent

  /** The decoded answer holds the document kind's header key and "revistas". */
  predicate HasRequiredKeys(v: Value, header: string) {
    v.Obj? && HasKey(v.fields, header) && HasKey(v.fields, "revistas")
  }

  /**
   * `parse_json_resposta` for a document kind whose header key is
   * `header`; `decode` is `json.loads` (None when it raises).
   */
  function ParseResponse(s: string, decode: string -> Option<Value>, header: string): (r: Result<Value, ParseError>)
    ensures r.Ok? ==> r.value.Obj? && IsNormal(r.value)
    ensures r.Ok? ==> HasRequiredKeys(r.value, header)
    ensures r.Ok? <==> decode(CleanResponse(s)).Some? && HasRequiredKeys(decode(CleanResponse(s)).value, header)
    ensures r == Err(NotJson) <==> decode(CleanResponse(s)).None?
  {
    match decode(CleanResponse(s))
    case None => Err(NotJson)
    case Some(v) =>
      if HasRequiredKeys(v, header) then
        var out := Conv(v);
        ConvGet(v.fields, header);
        ConvGet(v.fields, "revistas");
        Ok(out)
      else Err(MissingKeys)
  }

  const DELIVERY_HEADER := "notasentrega"

  datatype ExtractError =
    | NoText               // the PDF yielded no text; the model is not called
    | ModelFailed          // the model call raised
    | BadAnswer(e: ParseError)

  /**
   * `processar_pdf_para_json`: `text` is what the PDF reader returned and
   * `model` the language model (None when the call raises); its answer
   * is stripped before parsing. An empty text fails before the model.
   */
  function ProcessPdf(text: string, model: string -> Option<string>, decode: string -> Option<Value>, header: string): (r: Result<Value, ExtractError>)
    ensures text == "" ==> r == Err(NoText)
    ensures r.Ok? ==> HasRequiredKeys(r.value, header) && IsNormal(r.value)
    ensures r.Ok? <==> text != "" && model(text).Some? && ParseResponse(Strip(model(text).value), decode, header).Ok?
    ensures r.Ok? ==> r.value == ParseResponse(Strip(model(text).value), decode, header).value
  {
    if text == "" then Err(NoText)
    else match model(text)
      case None => Err(ModelFailed)
      case Some(answer) =>
        match ParseResponse(Strip(answer), decode, header)
        case Ok(v) => Ok(v)
        case Err(e) => Err(BadAnswer(e))
  }
}
