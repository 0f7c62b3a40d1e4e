/** What each input holds, and how the post of a click shows it. */
module Inputs {
  import opened Options
  import opened Text
  import opened Json
  import S = Surface
  import opened PlainText

  /** `fromisoformat` of the shape a text matched: which dates and times exist is not modelled. */
  type Calendar = string -> bool

  const TEXT_MAX := 2000

  // ----- JavaScript whitespace, as both clients see it -----

  predicate JsSpace(c: char) {
    || '\t' <= c <= '\r'
    || c in {' ', '\U{a0}', '\U{1680}', '\U{2028}', '\U{2029}', '\U{202f}', '\U{205f}', '\U{3000}', '\U{feff}'}
    || '\U{2000}' <= c <= '\U{200a}'
  }

  predicate Blank(s: string) { forall i :: 0 <= i < |s| ==> JsSpace(s[i]) }

  /** One or more characters that are neither blank nor `@`. */
  predicate EmailWord(s: string) {
    s != "" && forall i :: 0 <= i < |s| ==> !JsSpace(s[i]) && s[i] != '@'
  }

  /** `[^\s@]+@[^\s@]+\.[^\s@]+`, the whole text. */
  predicate Email(s: string) {
    exists at, dot :: 0 <= at < dot < |s| && s[at] == '@' && s[dot] == '.'
      && EmailWord(s[..at]) && EmailWord(s[at + 1..dot]) && EmailWord(s[dot + 1..])
  }

  // ----- decimal numbers: -?(\d+(\.\d+)?|\.\d+)([eE][+-]?\d+)? -----

  predicate Digits1(s: string) { s != "" && AllDigits(s) }

  predicate Mantissa(s: string) {
    Digits1(s) || exists dot :: 0 <= dot < |s| && s[dot] == '.' && AllDigits(s[..dot]) && Digits1(s[dot + 1..])
  }

  predicate Exponent(s: string) {
    |s| > 0 && s[0] in {'e', 'E'} && (Digits1(s[1..]) || (|s| > 1 && s[1] in {'+', '-'} && Digits1(s[2..])))
  }

  predicate Unsigned(s: string) {
    Mantissa(s) || exists e :: 0 <= e < |s| && Mantissa(s[..e]) && Exponent(s[e..])
  }

  predicate Number(s: string) {
    Unsigned(s) || (s != "" && s[0] == '-' && Unsigned(s[1..]))
  }

  // ----- dates and times -----

  /** Text of the pattern's shape: `d` stands for a digit, any other character for itself. */
  predicate Shaped(s: string, pattern: string) {
    |s| == |pattern| && forall i :: 0 <= i < |s| ==> if pattern[i] == 'd' then IsDigit(s[i]) else s[i] == pattern[i]
  }

  predicate DateShape(s: string) { Shaped(s, "dddd-dd-dd") }

  predicate TimeShape(s: string) { Shaped(s, "dd:dd") || Shaped(s, "dd:dd:dd") }

  predicate OffsetShape(s: string) { s == "" || s == "Z" || Shaped(s, "+dd:dd") || Shaped(s, "-dd:dd") }

  predicate DateTimeShape(s: string) {
    && |s| > 10 && DateShape(s[..10]) && s[10] == 'T'
    && exists z :: 11 <= z <= |s| && TimeShape(s[11..z]) && OffsetShape(s[z..])
  }

  function Moment(enableDate: bool, enableTime: bool, value: string, iso: Calendar): Option<string> {
    if value == "" then Some("")
    else if !enableDate && !enableTime then None
    else
      var shaped := if enableDate && enableTime then DateTimeShape(value)
                    else if enableDate then DateShape(value) else TimeShape(value);
      var width := if enableDate && enableTime then 16 else if enableDate then 10 else 5;
      if !shaped || !iso(value) then None
      else
        var text := ReplaceChar(value, 'T', " ");
        Some(if |text| > width then text[..width] else text)
  }

  // ----- text and picks -----

  function Typed(variant: S.Variant, text: string): Option<string> {
    if && |text| <= TEXT_MAX
       && (variant.LongText? || ('\r' !in text && '\n' !in text))
       && (!variant.Number? || text == "" || Number(text))
    then Some(text) else None
  }

  function ChoiceText(c: S.Choice): string {
    if c.caption.Str? then c.caption.s else c.value
  }

  /** The label of an option value; of equal values the last option counts. */
  function OptionText(options: seq<S.Choice>, value: string): (r: Option<string>)
    ensures r.Some? ==> exists i :: 0 <= i < |options| && ChoiceText(options[i]) == r.value
  {
    if options == [] then None
    else
      var rest := OptionText(options[1..], value);
      if rest.Some? then
        (var i :| 0 <= i < |options[1..]| && ChoiceText(options[1..][i]) == rest.value;
         assert ChoiceText(options[i + 1]) == rest.value;
         rest)
      else if options[0].value == value then Some(ChoiceText(options[0])) else None
  }

  predicate ValidPick(options: seq<S.Choice>, multiple: bool, values: seq<Json>) {
    && (forall i :: 0 <= i < |values| ==> values[i].Str? && OptionText(options, values[i].s).Some?)
    && (forall i, j :: 0 <= i < j < |values| ==> values[i] != values[j])
    && (|values| <= 1 || multiple)
  }

  function Picked(options: seq<S.Choice>, multiple: bool, values: seq<Json>): Option<string> {
    if ValidPick(options, multiple, values) then
      Some(Join(seq(|values|, i requires 0 <= i < |values| => OptionText(options, values[i].s).value), ", "))
    else None
  }

  // ----- the four inputs -----

  /** The value `null` stands for. */
  function Empty(kind: S.InputKind): Json {
    match kind
    case ChoicePicker(_, _) => Arr([])
    case CheckBox => Bool(false)
    case _ => Str("")
  }

  /** A value as the post shows it, "" for none; None when the input cannot hold it. */
  function Shown(kind: S.InputKind, value: Json, iso: Calendar): Option<string> {
    match kind
    case ChoicePicker(options, multiple) => if value.Arr? then Picked(options, multiple, value.items) else None
    case TextField(variant) => if value.Str? then Typed(variant, value.s) else None
    case CheckBox => if value.Bool? then Some(if value.b then "yes" else "no") else None
    case DateTimeInput(d, t) => if value.Str? then Moment(d, t, value.s, iso) else None
  }

  lemma EmptyIsShown(kind: S.InputKind, iso: Calendar)
    ensures Shown(kind, Empty(kind), iso).Some?
    ensures Empty(kind) != Null
  {
  }

  /** An input shows nothing that is not plain when its options and its text are plain. */
  lemma ShownIsPlain(kind: S.InputKind, value: Json, iso: Calendar)
    requires Shown(kind, value, iso).Some?
    requires value.Str? ==> Plain(value.s)
    requires kind.ChoicePicker? ==> forall i :: 0 <= i < |kind.options| ==> Plain(ChoiceText(kind.options[i]))
    ensures NoLink(Shown(kind, value, iso).value)
  {
    match kind
    case ChoicePicker(options, multiple) =>
      var values := value.items;
      var texts := seq(|values|, i requires 0 <= i < |values| => OptionText(options, values[i].s).value);
      forall i | 0 <= i < |texts| ensures NoLink(texts[i]) {
        var t := OptionText(options, values[i].s);
        assert t.Some?;
        var k :| 0 <= k < |options| && ChoiceText(options[k]) == t.value;
        assert Plain(ChoiceText(options[k]));
      }
      JoinNoLink(texts, ", ");
    case TextField(variant) =>
    case CheckBox =>
    case DateTimeInput(d, t) => MomentNoLink(d, t, value.s, iso);
  }

  lemma MomentNoLink(d: bool, t: bool, value: string, iso: Calendar)
    requires Moment(d, t, value, iso).Some? && NoLink(value)
    ensures NoLink(Moment(d, t, value, iso).value)
  {
    if value != "" {
      var text := ReplaceChar(value, 'T', " ");
      BlankedNoLink(value, 'T');
      var width := if d && t then 16 else if d then 10 else 5;
      if |text| > width {
        SliceNoLink(text, width);
      }
    }
  }

  /** Blanking out a character makes no link. */
  lemma BlankedNoLink(s: string, c: char)
    requires NoLink(s) && c !in {'/', ':', '@'}
    ensures NoLink(ReplaceChar(s, c, " "))
  {
    var t := ReplaceChar(s, c, " ");
    BlankedAt(s, c);
    forall i | 0 <= i < |t| - 2 ensures !LinkAt(t, i) {
      assert !LinkAt(s, i);
    }
  }

  lemma {:induction false} BlankedAt(s: string, c: char)
    ensures |ReplaceChar(s, c, " ")| == |s|
    ensures forall i :: 0 <= i < |s| ==> ReplaceChar(s, c, " ")[i] == if s[i] == c then ' ' else s[i]
  {
    if s != "" {
      BlankedAt(s[1..], c);
    }
  }
}
