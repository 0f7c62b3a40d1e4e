/** Which values each input holds, and what it shows of them. */
module HeldValues {
  import opened Options
  import opened Text
  import opened Json
  import S = Surface
  import opened Inputs
  import opened PlainText

  // ----- forms of text, put together from their parts -----

  /** A user, a host and a domain without blanks and `@`. */
  ghost predicate Address(s: string) {
    exists user, host, domain :: IsAddress(s, user, host, domain)
  }

  predicate IsAddress(s: string, user: string, host: string, domain: string) {
    EmailWord(user) && EmailWord(host) && EmailWord(domain) && s == user + "@" + host + "." + domain
  }

  lemma EmailHasParts(s: string)
    requires Email(s)
    ensures Address(s)
  {
    var at, dot :| 0 <= at < dot < |s| && s[at] == '@' && s[dot] == '.'
      && EmailWord(s[..at]) && EmailWord(s[at + 1..dot]) && EmailWord(s[dot + 1..]);
    assert s == s[..at] + "@" + s[at + 1..dot] + "." + s[dot + 1..];
    assert IsAddress(s, s[..at], s[at + 1..dot], s[dot + 1..]);
  }

  lemma PartsMakeEmail(s: string, user: string, host: string, domain: string)
    requires IsAddress(s, user, host, domain)
    ensures Email(s)
  {
    var at, dot := |user|, |user| + 1 + |host|;
    assert s[..at] == user && s[at + 1..dot] == host && s[dot + 1..] == domain;
    assert s[at] == '@' && s[dot] == '.';
  }

  lemma EmailIff(s: string)
    ensures Email(s) <==> Address(s)
  {
    if Email(s) {
      EmailHasParts(s);
    }
    if Address(s) {
      var user, host, domain :| IsAddress(s, user, host, domain);
      PartsMakeEmail(s, user, host, domain);
    }
  }

  /** Digits, with a fraction or without, or a fraction alone. */
  ghost predicate Decimal(s: string) {
    Digits1(s) || exists whole, part :: IsFraction(s, whole, part)
  }

  predicate IsFraction(s: string, whole: string, part: string) {
    AllDigits(whole) && Digits1(part) && s == whole + "." + part
  }

  predicate Power(s: string) {
    s == "" || (s[0] in {'e', 'E'} && (Digits1(s[1..]) || (s[1..] != "" && s[1] in {'+', '-'} && Digits1(s[2..]))))
  }

  /** A sign, a decimal and a power of ten. */
  ghost predicate Numeral(s: string) {
    exists sign, decimal, power :: IsNumeral(s, sign, decimal, power)
  }

  ghost predicate IsNumeral(s: string, sign: string, decimal: string, power: string) {
    sign in {"", "-"} && Decimal(decimal) && Power(power) && s == sign + (decimal + power)
  }

  lemma MantissaIff(s: string)
    ensures Mantissa(s) <==> Decimal(s)
  {
    if Mantissa(s) && !Digits1(s) {
      var dot :| 0 <= dot < |s| && s[dot] == '.' && AllDigits(s[..dot]) && Digits1(s[dot + 1..]);
      assert s == s[..dot] + "." + s[dot + 1..];
      assert IsFraction(s, s[..dot], s[dot + 1..]);
    }
    if Decimal(s) && !Digits1(s) {
      var whole, part :| IsFraction(s, whole, part);
      assert s[..|whole|] == whole && s[|whole| + 1..] == part;
    }
  }

  ghost predicate IsUnsigned(s: string, decimal: string, power: string) {
    Decimal(decimal) && Power(power) && s == decimal + power
  }

  lemma UnsignedParts(s: string) returns (decimal: string, power: string)
    requires Unsigned(s)
    ensures IsUnsigned(s, decimal, power)
  {
    if Mantissa(s) {
      MantissaIff(s);
      decimal, power := s, "";
      assert s == s + "";
    } else {
      var e :| 0 <= e < |s| && Mantissa(s[..e]) && Exponent(s[e..]);
      MantissaIff(s[..e]);
      decimal, power := s[..e], s[e..];
      assert s == decimal + power;
    }
  }

  lemma PartsAreUnsigned(s: string, decimal: string, power: string)
    requires IsUnsigned(s, decimal, power)
    ensures Unsigned(s)
  {
    MantissaIff(decimal);
    if power == "" {
      assert s == decimal;
    } else {
      assert s[..|decimal|] == decimal && s[|decimal|..] == power;
      assert Exponent(power);
    }
  }

  lemma NumberIff(s: string)
    ensures Number(s) <==> Numeral(s)
  {
    if Number(s) {
      var sign := if Unsigned(s) then "" else "-";
      var rest := s[|sign|..];
      assert s == sign + rest && Unsigned(rest);
      var decimal, power := UnsignedParts(rest);
      assert IsNumeral(s, sign, decimal, power);
    }
    if Numeral(s) {
      var sign, decimal, power :| IsNumeral(s, sign, decimal, power);
      PartsAreUnsigned(decimal + power, decimal, power);
      assert s == sign + (decimal + power) && s[|sign|..] == decimal + power;
    }
  }

  // ----- what a TextField and a CheckBox hold -----

  /** Text of at most 2000 characters, on one line unless the field is long, and a number if it is one. */
  ghost predicate Fits(variant: S.Variant, text: string) {
    && |text| <= 2000
    && (variant != S.LongText ==> forall i :: 0 <= i < |text| ==> text[i] != '\n' && text[i] != '\r')
    && (variant == S.Number ==> text == "" || Numeral(text))
  }

  lemma TextFieldShows(variant: S.Variant, value: Json, iso: Calendar)
    ensures forall text :: Shown(S.TextField(variant), value, iso) == Some(text) <==>
      value == Str(text) && Fits(variant, text)
  {
    if value.Str? {
      NumberIff(value.s);
    }
  }

  lemma CheckBoxShows(value: Json, iso: Calendar)
    ensures Shown(S.CheckBox, Bool(true), iso) == Some("yes") && Shown(S.CheckBox, Bool(false), iso) == Some("no")
    ensures Shown(S.CheckBox, value, iso).Some? <==> value == Bool(true) || value == Bool(false)
  {
  }

  // ----- what a ChoicePicker holds -----

  /** The last option with a value has this label, its value where the label is no literal. */
  predicate Labelled(options: seq<S.Choice>, value: string, text: string, k: nat) {
    && k < |options| && options[k].value == value
    && (forall j :: k < j < |options| ==> options[j].value != value)
    && text == match options[k].caption
               case Str(own) => own
               case _ => value
  }

  ghost predicate LabelOf(options: seq<S.Choice>, value: Json, text: string) {
    value.Str? && exists k: nat :: Labelled(options, value.s, text, k)
  }

  lemma {:induction false} OptionTextIs(options: seq<S.Choice>, value: string, text: string)
    ensures OptionText(options, value) == Some(text) <==> exists k: nat :: Labelled(options, value, text, k)
  {
    if options != [] {
      var rest := options[1..];
      assert forall j :: 0 <= j < |rest| ==> rest[j] == options[j + 1];
      OptionTextIs(rest, value, text);
      if exists k: nat :: Labelled(rest, value, text, k) {
        var k: nat :| Labelled(rest, value, text, k);
        assert Labelled(options, value, text, k + 1);
      }
      OptionUnknown(rest, value);
      if exists k: nat :: Labelled(options, value, text, k) {
        var k: nat :| Labelled(options, value, text, k);
        if k > 0 {
          assert Labelled(rest, value, text, k - 1);
        } else {
          assert forall j :: 0 < j < |options| ==> options[j].value != value;
        }
      }
      if OptionText(rest, value).None? && options[0].value == value && ChoiceText(options[0]) == text {
        assert Labelled(options, value, text, 0);
      }
    }
  }

  lemma {:induction false} OptionUnknown(options: seq<S.Choice>, value: string)
    ensures OptionText(options, value).None? <==> forall j :: 0 <= j < |options| ==> options[j].value != value
  {
    if options != [] {
      assert forall j :: 1 <= j < |options| ==> options[j] == options[1..][j - 1];
      OptionUnknown(options[1..], value);
    }
  }

  /** Different option values, at most one unless several may be picked, with their labels. */
  ghost predicate Picks(options: seq<S.Choice>, multiple: bool, values: seq<Json>, texts: seq<string>) {
    && |texts| == |values|
    && (forall i :: 0 <= i < |values| ==> LabelOf(options, values[i], texts[i]))
    && (forall i, j :: 0 <= i < j < |values| ==> values[i] != values[j])
    && (multiple || |values| <= 1)
  }

  lemma PicksShow(options: seq<S.Choice>, multiple: bool, values: seq<Json>, texts: seq<string>, iso: Calendar)
    requires Picks(options, multiple, values, texts)
    ensures Shown(S.ChoicePicker(options, multiple), Arr(values), iso) == Some(Join(texts, ", "))
  {
    forall i | 0 <= i < |values|
      ensures values[i].Str? && OptionText(options, values[i].s) == Some(texts[i])
    {
      assert LabelOf(options, values[i], texts[i]);
      OptionTextIs(options, values[i].s, texts[i]);
    }
    var shown := seq(|values|, i requires 0 <= i < |values| => OptionText(options, values[i].s).value);
    assert shown == texts;
  }

  /** A list is shown exactly when it is a pick, and then as its labels in order. */
  lemma ChoicePickerShows(options: seq<S.Choice>, multiple: bool, value: Json, iso: Calendar)
    ensures Shown(S.ChoicePicker(options, multiple), value, iso).Some? <==>
      value.Arr? && exists texts :: Picks(options, multiple, value.items, texts)
    ensures value.Arr? ==> forall texts :: Picks(options, multiple, value.items, texts) ==>
      Shown(S.ChoicePicker(options, multiple), value, iso) == Some(Join(texts, ", "))
  {
    if value.Arr? {
      forall texts | Picks(options, multiple, value.items, texts)
        ensures Shown(S.ChoicePicker(options, multiple), value, iso) == Some(Join(texts, ", "))
      {
        PicksShow(options, multiple, value.items, texts, iso);
      }
      if ValidPick(options, multiple, value.items) {
        ValidIsPick(options, multiple, value.items);
      }
    }
  }

  lemma ValidIsPick(options: seq<S.Choice>, multiple: bool, values: seq<Json>)
    requires ValidPick(options, multiple, values)
    ensures exists texts :: Picks(options, multiple, values, texts)
  {
    var texts := seq(|values|, i requires 0 <= i < |values| => OptionText(options, values[i].s).value);
    forall i | 0 <= i < |values| ensures LabelOf(options, values[i], texts[i]) {
      OptionTextIs(options, values[i].s, texts[i]);
    }
    assert Picks(options, multiple, values, texts);
  }

  // ----- what a DateTimeInput holds -----

  /** A text of the parts an input enables, at a time there is. */
  predicate Dated(enableDate: bool, enableTime: bool, text: string, iso: Calendar) {
    && (enableDate || enableTime) && iso(text)
    && (enableDate && enableTime ==> DateTimeShape(text))
    && (enableDate && !enableTime ==> DateShape(text))
    && (!enableDate && enableTime ==> TimeShape(text))
  }

  /** What a dated text shows: a date, a time to the minute, or both with a space between. */
  lemma DatedShows(enableDate: bool, enableTime: bool, text: string, iso: Calendar)
    requires text != "" && Dated(enableDate, enableTime, text, iso)
    ensures Moment(enableDate, enableTime, text, iso) == Some(
      if enableDate && enableTime then text[..10] + " " + text[11..16]
      else if enableDate then text else text[..5])
  {
    BlankedAt(text, 'T');
    if enableDate && enableTime {
      BothParts(text);
      var shown := ReplaceChar(text, 'T', " ");
      assert |shown| == 16 ==> shown[..16] == shown;
    } else if enableTime {
      TimeHasNoT(text);
      assert ReplaceChar(text, 'T', " ") == text && (|text| == 5 ==> text[..5] == text);
    } else {
      assert ReplaceChar(text, 'T', " ") == text;
    }
  }

  /** Nothing, or the enabled parts of a time that there is, to the minute. */
  lemma DateTimeShows(enableDate: bool, enableTime: bool, value: Json, iso: Calendar)
    ensures var shown := Shown(S.DateTimeInput(enableDate, enableTime), value, iso);
      && (shown.Some? <==> value == Str("") || (value.Str? && Dated(enableDate, enableTime, value.s, iso)))
      && (value == Str("") ==> shown == Some(""))
      && (shown.Some? && value.s != "" ==> shown == Some(
            if enableDate && enableTime then value.s[..10] + " " + value.s[11..16]
            else if enableDate then value.s else value.s[..5]))
  {
    if value.Str? && value.s != "" && Dated(enableDate, enableTime, value.s, iso) {
      DatedShows(enableDate, enableTime, value.s, iso);
    }
  }

  lemma TimeHasNoT(text: string)
    requires TimeShape(text)
    ensures 5 <= |text| <= 8 && 'T' !in text
  {
    var pattern := if Shaped(text, "dd:dd") then "dd:dd" else "dd:dd:dd";
    assert forall i :: 0 <= i < |pattern| ==> pattern[i] in {'d', ':'};
    assert forall i :: 0 <= i < |text| ==> if pattern[i] == 'd' then IsDigit(text[i]) else text[i] == pattern[i];
  }

  lemma BothParts(text: string)
    requires DateTimeShape(text) && |ReplaceChar(text, 'T', " ")| == |text|
    requires forall i :: 0 <= i < |text| ==> ReplaceChar(text, 'T', " ")[i] == if text[i] == 'T' then ' ' else text[i]
    ensures |text| >= 16 && ReplaceChar(text, 'T', " ")[..16] == text[..10] + " " + text[11..16]
  {
    var z :| 11 <= z <= |text| && TimeShape(text[11..z]) && OffsetShape(text[z..]);
    var shown := ReplaceChar(text, 'T', " ");
    assert |text[11..z]| >= 5;
    forall i | 0 <= i < 16 ensures shown[i] == (text[..10] + " " + text[11..16])[i] {
      if i < 10 {
        assert text[..10][i] == text[i];
      } else if i > 10 {
        assert text[11..z][i - 11] == text[i];
      }
    }
  }
}
