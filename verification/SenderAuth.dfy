/** The sender-authentication verdict. */
module SenderAuth {
  // It is read from our own Authentication-Results header. Comments nest (RFC 5322 section 3.2.2). They are
  // removed by rewriting innermost comments until none is left, which comes to the same as one pass with a
  // stack.

  import opened Options
  import opened Text

  // ----- rewriting -----

  /** After an opening parenthesis: how many characters come before its closing one, if no other
      parenthesis does. */
  function CommentEnd(s: string): (r: Option<nat>)
    ensures r.Some? ==> r.value < |s| && s[r.value] == ')' && forall i :: 0 <= i < r.value ==> s[i] !in {'(', ')'}
  {
    if s == "" || s[0] == '(' then None
    else if s[0] == ')' then Some(0)
    else
      var rest := CommentEnd(s[1..]);
      if rest.None? then None else Some(rest.value + 1)
  }

  /** Every innermost comment, left to right, replaced by a space. */
  function SubOnce(s: string): string
    decreases |s|
  {
    if s == "" then ""
    else
      var end := if s[0] == '(' then CommentEnd(s[1..]) else None;
      if end.Some? then " " + SubOnce(s[end.value + 2..]) else [s[0]] + SubOnce(s[1..])
  }

  lemma {:induction false} SubOnceShrinks(s: string)
    ensures |SubOnce(s)| <= |s|
    ensures |SubOnce(s)| == |s| ==> SubOnce(s) == s && NoComment(s)
    ensures NoComment(s) ==> SubOnce(s) == s
    decreases |s|
  {
    if s != "" {
      var end := if s[0] == '(' then CommentEnd(s[1..]) else None;
      if end.Some? {
        SubOnceShrinks(s[end.value + 2..]);
      } else {
        SubOnceShrinks(s[1..]);
        assert s == [s[0]] + s[1..];
      }
    }
  }

  /** No opening parenthesis is closed before another parenthesis. */
  predicate NoComment(s: string) {
    s == "" || ((s[0] == '(' ==> CommentEnd(s[1..]).None?) && NoComment(s[1..]))
  }

  /** Rewriting until nothing changes. */
  function StripComments(s: string): string
    decreases |s|
  {
    SubOnceShrinks(s);
    if SubOnce(s) == s then s else StripComments(SubOnce(s))
  }

  // ----- one pass with a stack -----

  /** The text before any open parenthesis, then the text after each one still open. */
  type Stack = st: seq<string> | |st| > 0 witness [""]

  function Append(st: Stack, text: string): Stack {
    st[..|st| - 1] + [st[|st| - 1] + text]
  }

  /** A closing parenthesis turns the innermost open group into a space; an unmatched one stays. */
  function ScanChar(st: Stack, c: char): Stack {
    if c == '(' then st + [""]
    else if c == ')' && |st| > 1 then Append(st[..|st| - 1], " ")
    else Append(st, [c])
  }

  function ScanFrom(st: Stack, s: string): Stack
    decreases s
  {
    if s == "" then st else ScanFrom(ScanChar(st, s[0]), s[1..])
  }

  /** Parentheses still open were never matched and stay. */
  function Flatten(st: Stack): string {
    if |st| == 1 then st[0] else Flatten(st[..|st| - 1]) + "(" + st[|st| - 1]
  }

  /** Each outermost matched group replaced by one space, unmatched parentheses kept. */
  function Scan(s: string): string { Flatten(ScanFrom([""], s)) }

  lemma {:induction false} ScanAppend(st: Stack, a: string, b: string)
    ensures ScanFrom(st, a + b) == ScanFrom(ScanFrom(st, a), b)
    decreases a
  {
    if a == "" {
      assert a + b == b;
    } else {
      assert (a + b)[1..] == a[1..] + b;
      ScanAppend(ScanChar(st, a[0]), a[1..], b);
    }
  }

  lemma AppendTwice(st: Stack, x: string, y: string)
    ensures Append(Append(st, x), y) == Append(st, x + y)
    ensures Append(st, "") == st
  {
    var last := st[|st| - 1];
    assert last + x + y == last + (x + y);
    assert last + "" == last;
  }

  lemma {:induction false} ScanPlain(st: Stack, m: string)
    requires forall i :: 0 <= i < |m| ==> m[i] !in {'(', ')'}
    ensures ScanFrom(st, m) == Append(st, m)
    decreases m
  {
    if m == "" {
      AppendTwice(st, "", "");
    } else {
      var st' := Append(st, [m[0]]);
      ScanPlain(st', m[1..]);
      assert m == [m[0]] + m[1..];
      AppendTwice(st, [m[0]], m[1..]);
    }
  }

  /** A comment scans like the space that replaces it. */
  lemma ScanComment(st: Stack, m: string)
    requires forall i :: 0 <= i < |m| ==> m[i] !in {'(', ')'}
    ensures ScanFrom(st, "(" + m + ")") == ScanFrom(st, " ")
  {
    var open: Stack := st + [""];
    assert "(" + m + ")" == ["("[0]] + (m + ")");
    assert ("(" + m + ")")[1..] == m + ")";
    ScanAppend(open, m, ")");
    ScanPlain(open, m);
    assert "" + m == m;
    assert Append(open, m) == st + [m];
    assert ")"[1..] == "" && " "[1..] == "";
    assert (st + [m])[..|st|] == st;
  }

  lemma {:induction false} SubOnceScans(st: Stack, s: string)
    ensures ScanFrom(st, SubOnce(s)) == ScanFrom(st, s)
    decreases |s|
  {
    if s != "" {
      var end := if s[0] == '(' then CommentEnd(s[1..]) else None;
      if end.Some? {
        var m, rest := s[1..end.value + 1], s[end.value + 2..];
        forall i | 0 <= i < |m| ensures m[i] !in {'(', ')'} {
          assert m[i] == s[1..][i];
        }
        assert s == "(" + m + ")" + rest;
        ScanComment(st, m);
        ScanAppend(st, "(" + m + ")", rest);
        ScanAppend(st, " ", SubOnce(rest));
        SubOnceScans(ScanFrom(st, " "), rest);
      } else {
        SubOnceScans(ScanChar(st, s[0]), s[1..]);
        assert ([s[0]] + SubOnce(s[1..]))[1..] == SubOnce(s[1..]);
      }
    }
  }

  lemma {:induction false} OpenHasNoClose(s: string)
    requires NoComment(s) && CommentEnd(s).None?
    ensures ')' !in s
  {
    if s != "" {
      OpenHasNoClose(s[1..]);
      assert s == [s[0]] + s[1..];
    }
  }

  lemma FlattenAppend(st: Stack, text: string)
    ensures Flatten(Append(st, text)) == Flatten(st) + text
  {
    var r := Append(st, text);
    assert r[..|r| - 1] == st[..|st| - 1];
  }

  lemma FlattenOpen(st: Stack)
    ensures Flatten(st + [""]) == Flatten(st) + "("
  {
    assert (st + [""])[..|st|] == st;
  }

  /** A character that closes no comment scans to itself. */
  lemma ScanCharKeeps(st: Stack, c: char)
    requires |st| == 1 || c != ')'
    ensures Flatten(ScanChar(st, c)) == Flatten(st) + [c]
  {
    if c == '(' {
      FlattenOpen(st);
    } else {
      FlattenAppend(st, [c]);
    }
  }

  /** A text without a comment scans to itself. */
  lemma {:induction false} ScanKeeps(st: Stack, s: string)
    requires if |st| == 1 then NoComment(s) else ')' !in s
    ensures Flatten(ScanFrom(st, s)) == Flatten(st) + s
    decreases s
  {
    if s == "" {
      assert Flatten(st) + s == Flatten(st);
    } else {
      if s[0] == '(' && |st| == 1 {
        OpenHasNoClose(s[1..]);
      }
      ScanCharKeeps(st, s[0]);
      ScanKeeps(ScanChar(st, s[0]), s[1..]);
      assert s == [s[0]] + s[1..];
      Regroup(Flatten(st), [s[0]], s[1..]);
    }
  }

  /** Rewriting equals the one-pass scan, and leaves no comment. */
  lemma {:induction false} StripIsScan(s: string)
    ensures StripComments(s) == Scan(s)
    ensures NoComment(StripComments(s))
    decreases |s|
  {
    SubOnceShrinks(s);
    if SubOnce(s) == s {
      ScanKeeps([""], s);
      assert "" + s == s;
    } else {
      StripIsScan(SubOnce(s));
      SubOnceScans([""], s);
    }
  }

  /** The rewriting loop: each round is shorter, so it ends; what it returns is the one-pass scan. */
  method StripLoop(start: string) returns (value: string)
    ensures value == Scan(start)
  {
    value := start;
    var stripped := SubOnce(value);
    SubOnceShrinks(value);
    while stripped != value
      invariant stripped == SubOnce(value) && |stripped| <= |value|
      invariant Scan(value) == Scan(start)
      decreases |value|
    {
      SubOnceScans([""], value);
      SubOnceShrinks(value);
      value := stripped;
      stripped := SubOnce(value);
      SubOnceShrinks(value);
    }
    SubOnceShrinks(value);
    ScanKeeps([""], value);
    assert "" + value == value;
  }

  // ----- what is between matched parentheses does not matter -----

  /** Parentheses in `m` match, with `depth` of them opened before it. */
  predicate Balanced(m: string, depth: nat) {
    if m == "" then depth == 0
    else if m[0] == '(' then Balanced(m[1..], depth + 1)
    else if m[0] == ')' then depth > 0 && Balanced(m[1..], depth - 1)
    else Balanced(m[1..], depth)
  }

  lemma {:induction false} ScanBalanced(st: Stack, open: seq<string>, m: string) returns (x: string)
    requires |open| > 0 && Balanced(m, |open| - 1)
    ensures ScanFrom(st + open, m) == st + [x]
    decreases m
  {
    var all: Stack := st + open;
    if m == "" {
      x := open[0];
      assert open == [x];
    } else {
      var n := |open| - 1;
      if m[0] == '(' {
        assert all + [""] == st + (open + [""]);
        x := ScanBalanced(st, open + [""], m[1..]);
      } else if m[0] == ')' {
        var shorter := open[..n - 1] + [open[n - 1] + " "];
        assert all[..|all| - 1] == st + open[..n];
        assert ScanChar(all, ')') == st + shorter;
        x := ScanBalanced(st, shorter, m[1..]);
      } else {
        var longer := open[..n] + [open[n] + [m[0]]];
        assert ScanChar(all, m[0]) == st + longer;
        x := ScanBalanced(st, longer, m[1..]);
      }
    }
  }

  /** A matched group, whatever is nested in it, scans to one space. */
  lemma ScanGroup(st: Stack, m: string)
    requires Balanced(m, 0)
    ensures ScanFrom(st, "(" + m + ")") == ScanFrom(st, " ")
  {
    var x := ScanBalanced(st, [""], m);
    assert ("(" + m + ")")[1..] == m + ")";
    ScanAppend(st + [""], m, ")");
    assert (st + [x])[..|st|] == st;
    assert ")"[1..] == "" && " "[1..] == "";
  }

  /** The text of a comment, nested comments included, is gone after stripping. */
  lemma CommentTextIsGone(a: string, m: string, m': string, b: string)
    requires Balanced(m, 0) && Balanced(m', 0)
    ensures StripComments(a + "(" + m + ")" + b) == StripComments(a + "(" + m' + ")" + b)
  {
    StripIsScan(a + "(" + m + ")" + b);
    StripIsScan(a + "(" + m' + ")" + b);
    ScanAround(a, m, b);
    ScanAround(a, m', b);
  }

  lemma ScanAround(a: string, m: string, b: string)
    requires Balanced(m, 0)
    ensures Scan(a + "(" + m + ")" + b) == Flatten(ScanFrom(ScanFrom(ScanFrom([""], a), " "), b))
  {
    var st := ScanFrom([""], a);
    assert a + "(" + m + ")" + b == a + (("(" + m + ")") + b);
    ScanAppend([""], a, ("(" + m + ")") + b);
    ScanAppend(st, "(" + m + ")", b);
    ScanGroup(st, m);
  }

  // ----- quoted strings are blanked first -----

  /** After an opening quote: how many characters come before its closing one. */
  function QuotedEnd(s: string): (r: Option<nat>)
    ensures r.Some? ==> r.value < |s|
  {
    if s == "" then None
    else if s[0] == '"' then Some(0)
    else
      var n := if s[0] == '\\' then 2 else 1;
      if |s| < n || (n == 2 && s[1] == '\n') then None
      else
        var rest := QuotedEnd(s[n..]);
        if rest.None? then None else Some(rest.value + n)
  }

  /** Every quoted string replaced by an empty one. */
  function BlankQuoted(s: string): string
    decreases |s|
  {
    if s == "" then ""
    else
      var end := if s[0] == '"' then QuotedEnd(s[1..]) else None;
      if end.Some? then "\"\"" + BlankQuoted(s[end.value + 2..]) else [s[0]] + BlankQuoted(s[1..])
  }

  lemma {:induction false} BlankNoQuote(c: string, b: string)
    requires '"' !in c
    ensures BlankQuoted(c + b) == c + BlankQuoted(b)
    decreases |c|
  {
    if c == "" {
      NothingBefore(b);
      NothingBefore(BlankQuoted(b));
    } else {
      FirstChar(c, b);
      FirstChar(c, BlankQuoted(b));
      BlankSkips(c[0], c[1..] + b);
      BlankNoQuote(c[1..], b);
    }
  }

  /** How many characters a step through a quoted string takes. */
  function StepOf(s: string): nat
    requires s != ""
  {
    if s[0] == '\\' then 2 else 1
  }

  /** Stepping as a quoted string does gets past the text: no backslash of a pair has a line break after it. */
  predicate Through(s: string)
    decreases |s|
  {
    s == "" || (StepOf(s) <= |s| && !(StepOf(s) == 2 && s[1] == '\n') && Through(s[StepOf(s)..]))
  }

  /** A comment whose text holds no quote. */
  predicate Comment(c: string) {
    |c| >= 2 && c[0] == '(' && c[|c| - 1] == ')' && '"' !in c
  }

  /** The end of a comment: no quote, and a last character that is no backslash. */
  predicate Tail(c: string) {
    '"' !in c && (c != "" ==> c[|c| - 1] != '\\')
  }

  lemma TailStep(c: string)
    requires Tail(c) && c != ""
    ensures StepOf(c) <= |c| && Tail(c[StepOf(c)..])
  {
  }

  /** A quoted string that reaches a comment passes it whole, or never ends. */
  lemma {:induction false} QuotedEndPast(c: string, b: string)
    requires Tail(c)
    ensures QuotedEnd(c + b) == if !Through(c) || QuotedEnd(b).None? then None else Some(|c| + QuotedEnd(b).value)
    decreases |c|
  {
    if c == "" {
      assert c + b == b;
    } else {
      TailStep(c);
      if StepOf(c) == 2 && c[1] == '\n' {
        LineBreakEnds(c, b);
      } else {
        QuotedEndFront(c, b);
        QuotedEndPast(c[StepOf(c)..], b);
      }
    }
  }

  lemma LineBreakEnds(c: string, b: string)
    requires |c| >= 2 && c[0] == '\\' && c[1] == '\n'
    ensures QuotedEnd(c + b) == None
  {
    var s := c + b;
    assert s[0] == '\\' && s[1] == '\n';
  }

  /** Where a quoted string that starts before a comment ends: before it, after it, or nowhere. */
  datatype Ending = Before(at: nat) | After(at: nat) | Never

  function EndingOf(a: string, through: bool, b: string): (r: Ending)
    ensures r.Before? ==> r.at < |a|
    ensures r.After? ==> r.at < |b|
    decreases |a|
  {
    if a == "" || a == "\\" then
      (if !through || QuotedEnd(b).None? then Never else After(QuotedEnd(b).value))
    else if a[0] == '"' then Before(0)
    else
      var n := if a[0] == '\\' then 2 else 1;
      if n == 2 && a[1] == '\n' then Never
      else
        var rest := EndingOf(a[n..], through, b);
        if rest.Before? then Before(rest.at + n) else rest
  }

  lemma DropFront(a: string, x: string, n: nat)
    requires n <= |a|
    ensures (a + x)[n..] == a[n..] + x
  {
  }

  lemma DropPast(a: string, c: string, b: string, n: nat)
    requires n <= |b|
    ensures (a + (c + b))[|a| + |c| + n..] == b[n..]
  {
  }

  lemma QuotedEndStep(s: string)
    requires s != "" && s[0] != '"' && StepOf(s) <= |s| && !(StepOf(s) == 2 && s[1] == '\n')
    ensures var rest := QuotedEnd(s[StepOf(s)..]);
      QuotedEnd(s) == if rest.None? then None else Some(rest.value + StepOf(s))
  {
  }

  /** Where a quoted string around a comment ends, in the characters of the whole text. */
  function Placed(ending: Ending, before: nat): Option<nat> {
    match ending
    case Before(at) => Some(at)
    case After(at) => Some(before + at)
    case Never => None
  }

  lemma QuotedEndFront(a: string, x: string)
    requires a != "" && a[0] != '"' && StepOf(a) <= |a| && !(StepOf(a) == 2 && a[1] == '\n')
    ensures var rest := QuotedEnd(a[StepOf(a)..] + x);
      QuotedEnd(a + x) == if rest.None? then None else Some(rest.value + StepOf(a))
  {
    var s := a + x;
    assert s[0] == a[0] && (StepOf(a) == 2 ==> s[1] == a[1]);
    QuotedEndStep(s);
    DropFront(a, x, StepOf(a));
  }

  lemma EndingStep(a: string, through: bool, b: string)
    requires a != "" && a != "\\" && a[0] != '"' && !(StepOf(a) == 2 && a[1] == '\n')
    ensures StepOf(a) <= |a|
    ensures var rest := EndingOf(a[StepOf(a)..], through, b);
      EndingOf(a, through, b) == if rest.Before? then Before(rest.at + StepOf(a)) else rest
  {
  }

  /** A quoted string that ends at once, or that a line break after a backslash cuts off. */
  lemma EndingAtOnce(a: string, x: string, through: bool, b: string)
    requires a != "" && a != "\\" && (a[0] == '"' || (StepOf(a) == 2 && a[1] == '\n'))
    ensures QuotedEnd(a + x) == Placed(EndingOf(a, through, b), 0) && !EndingOf(a, through, b).After?
  {
    var s := a + x;
    assert s[0] == a[0] && (StepOf(a) == 2 ==> s[1] == a[1]);
  }

  lemma EndingLater(a: string, x: string, through: bool, b: string, before: nat)
    requires a != "" && a != "\\" && a[0] != '"' && !(StepOf(a) == 2 && a[1] == '\n') && StepOf(a) <= before
    requires QuotedEnd(a[StepOf(a)..] + x) == Placed(EndingOf(a[StepOf(a)..], through, b), before - StepOf(a))
    ensures QuotedEnd(a + x) == Placed(EndingOf(a, through, b), before)
  {
    EndingStep(a, through, b);
    QuotedEndFront(a, x);
  }

  lemma {:induction false} EndingAround(a: string, c: string, b: string)
    requires Comment(c)
    ensures QuotedEnd(a + (c + b)) == Placed(EndingOf(a, Through(c), b), |a| + |c|)
    decreases |a|
  {
    if a == "" || a == "\\" {
      EndingAtComment(a, c, b);
    } else if a[0] == '"' || (StepOf(a) == 2 && a[1] == '\n') {
      EndingAtOnce(a, c + b, Through(c), b);
    } else {
      EndingAround(a[StepOf(a)..], c, b);
      EndingLater(a, c + b, Through(c), b, |a| + |c|);
    }
  }

  lemma EndingAtComment(a: string, c: string, b: string)
    requires Comment(c) && (a == "" || a == "\\")
    ensures QuotedEnd(a + (c + b)) == Placed(EndingOf(a, Through(c), b), |a| + |c|)
  {
    if a == "" {
      assert a + (c + b) == c + b;
      QuotedEndPast(c, b);
    } else {
      Peel(c, b);
      EscapedEnd(c[0], c[1..], b);
    }
  }

  lemma EscapedFirst(c: char, x: string)
    requires c != '\n'
    ensures QuotedEnd("\\" + ([c] + x)) == if QuotedEnd(x).None? then None else Some(2 + QuotedEnd(x).value)
  {
    var s := "\\" + ([c] + x);
    assert s[0] == '\\' && s[1] == c && s[2..] == x;
    QuotedEndStep(s);
  }

  lemma Peel(c: string, b: string)
    requires Comment(c)
    ensures c + b == [c[0]] + (c[1..] + b)
    ensures Through(c) == Through(c[1..]) && Tail(c[1..])
  {
  }

  /** A backslash just before a comment escapes its parenthesis. */
  lemma EscapedEnd(first: char, tail: string, b: string)
    requires Tail(tail) && first != '\n'
    ensures QuotedEnd("\\" + ([first] + (tail + b)))
         == if !Through(tail) || QuotedEnd(b).None? then None else Some(2 + |tail| + QuotedEnd(b).value)
  {
    EscapedFirst(first, tail + b);
    QuotedEndPast(tail, b);
  }

  lemma BlankSkips(c: char, rest: string)
    requires c != '"' || QuotedEnd(rest).None?
    ensures BlankQuoted([c] + rest) == [c] + BlankQuoted(rest)
  {
    assert ([c] + rest)[1..] == rest;
  }

  lemma BlankHits(rest: string, n: nat, after: string)
    requires QuotedEnd(rest) == Some(n) && rest[n + 1..] == after
    ensures BlankQuoted("\"" + rest) == "\"\"" + BlankQuoted(after)
  {
    var s := "\"" + rest;
    assert s[1..] == rest && s[n + 2..] == rest[n + 1..];
  }

  lemma BlankNoString(first: char, a: string, c: string, b: string)
    requires Comment(c) && (first != '"' || EndingOf(a, Through(c), b).Never?)
    ensures BlankQuoted([first] + (a + (c + b))) == [first] + BlankQuoted(a + (c + b))
  {
    EndingAround(a, c, b);
    BlankSkips(first, a + (c + b));
  }

  lemma BlankHitsFront(a: string, x: string, at: nat)
    requires at < |a| && QuotedEnd(a + x) == Some(at)
    ensures BlankQuoted("\"" + (a + x)) == "\"\"" + BlankQuoted(a[at + 1..] + x)
  {
    DropFront(a, x, at + 1);
    BlankHits(a + x, at, a[at + 1..] + x);
  }

  lemma BlankStringBefore(a: string, c: string, b: string, at: nat)
    requires Comment(c) && at < |a| && EndingOf(a, Through(c), b) == Before(at)
    ensures BlankQuoted("\"" + (a + (c + b))) == "\"\"" + BlankQuoted(a[at + 1..] + (c + b))
  {
    assert QuotedEnd(a + (c + b)) == Some(at) by {
      EndingAround(a, c, b);
    }
    BlankHitsFront(a, c + b, at);
  }

  lemma BlankHitsPast(a: string, c: string, b: string, at: nat)
    requires at < |b| && QuotedEnd(a + (c + b)) == Some(|a| + |c| + at)
    ensures BlankQuoted("\"" + (a + (c + b))) == "\"\"" + BlankQuoted(b[at + 1..])
  {
    DropPast(a, c, b, at + 1);
    BlankHits(a + (c + b), |a| + |c| + at, b[at + 1..]);
  }

  lemma BlankStringAfter(a: string, c: string, b: string, at: nat)
    requires Comment(c) && at < |b| && EndingOf(a, Through(c), b) == After(at)
    ensures BlankQuoted("\"" + (a + (c + b))) == "\"\"" + BlankQuoted(b[at + 1..])
  {
    assert QuotedEnd(a + (c + b)) == Some(|a| + |c| + at) by {
      EndingAround(a, c, b);
    }
    BlankHitsPast(a, c, b, at);
  }

  /** The first step of blanking in front of a comment: no quoted string, one that ends before the
      comment, or one that ends after it. */
  lemma BlankOne(first: char, a: string, c: string, b: string, ending: Ending)
    requires Comment(c) && ending == EndingOf(a, Through(c), b)
    requires (ending.Before? ==> ending.at < |a|) && (ending.After? ==> ending.at < |b|)
    ensures BlankQuoted([first] + (a + (c + b))) ==
      if first != '"' || ending.Never? then [first] + BlankQuoted(a + (c + b))
      else "\"\"" + BlankQuoted(if ending.Before? then a[ending.at + 1..] + (c + b) else b[ending.at + 1..])
  {
    if first != '"' || ending.Never? {
      BlankNoString(first, a, c, b);
    } else if ending.Before? {
      BlankStringBefore(a, c, b, ending.at);
    } else {
      BlankStringAfter(a, c, b, ending.at);
    }
  }

  /** That first step is the same for two comments that both let a quoted string through or both do not. */
  lemma BlankBegins(a: string, c: string, c': string, b: string) returns (ended: bool, done: string, skipped: string)
    requires a != "" && Comment(c) && Comment(c') && Through(c) == Through(c')
    ensures ended ==> BlankQuoted(a + (c + b)) == BlankQuoted(a + (c' + b))
    ensures !ended ==>
      && |skipped| < |a|
      && BlankQuoted(a + (c + b)) == done + BlankQuoted(skipped + (c + b))
      && BlankQuoted(a + (c' + b)) == done + BlankQuoted(skipped + (c' + b))
  {
    var first, rest := a[0], a[1..];
    var ending := EndingOf(rest, Through(c), b);
    FirstChar(a, c + b);
    FirstChar(a, c' + b);
    BlankOne(first, rest, c, b, ending);
    BlankOne(first, rest, c', b, ending);
    ended := first == '"' && ending.After?;
    done := if first == '"' && ending.Before? then "\"\"" else [first];
    skipped := if first == '"' && ending.Before? then rest[ending.at + 1..] else rest;
  }

  lemma FirstChar(a: string, x: string)
    requires a != ""
    ensures a + x == [a[0]] + (a[1..] + x)
  {
  }

  /** Around a comment quoted strings are blanked the same way whatever its text, unless one swallows it. */
  lemma {:induction false} BlankAround(a: string, c: string, c': string, b: string)
    returns (kept: bool, before: string, after: string)
    requires Comment(c)
    requires Comment(c') && Through(c) == Through(c')
    ensures kept ==> BlankQuoted(a + (c + b)) == before + (c + after) && BlankQuoted(a + (c' + b)) == before + (c' + after)
    ensures !kept ==> BlankQuoted(a + (c + b)) == BlankQuoted(a + (c' + b))
    decreases |a|
  {
    if a == "" {
      NothingBefore(c + b);
      NothingBefore(c' + b);
      BlankNoQuote(c, b);
      BlankNoQuote(c', b);
      kept, before, after := true, "", BlankQuoted(b);
      NothingBefore(c + after);
      NothingBefore(c' + after);
    } else {
      var ended, done, skipped := BlankBegins(a, c, c', b);
      if ended {
        kept, before, after := false, "", "";
      } else {
        kept, before, after := BlankAround(skipped, c, c', b);
        Regroup(done, before, c + after);
        Regroup(done, before, c' + after);
        before := done + before;
      }
    }
  }

  lemma NothingBefore(x: string)
    ensures "" + x == x
  {
  }

  lemma Regroup(a: string, b: string, c: string)
    ensures a + (b + c) == (a + b) + c
  {
  }

  /** The part of the header that is read: quoted strings blanked, then comments stripped. */
  function Structure(header: string): string { StripComments(BlankQuoted(header)) }

  /** The text of a comment, and whether it lets a quoted string around it end. */
  predicate CommentText(m: string) { Balanced(m, 0) && '"' !in m }

  predicate LetsThrough(m: string) { Through(m + ")") }

  lemma LetsThroughComment(m: string)
    requires CommentText(m)
    ensures Comment("(" + m + ")") && Through("(" + m + ")") == LetsThrough(m)
  {
    var c := "(" + m + ")";
    assert c[1..] == m + ")";
    assert '"' !in c;
  }

  /** A comment's text without a line break lets every quoted string through, whatever its backslashes. */
  lemma {:induction false} OneLineLetsThrough(m: string)
    requires '\n' !in m
    ensures LetsThrough(m)
    decreases |m|
  {
    var s := m + ")";
    if m != "" && m != "\\" {
      assert s[StepOf(s)..] == m[StepOf(m)..] + ")";
      OneLineLetsThrough(m[StepOf(m)..]);
    } else {
      assert s[StepOf(s)..] == "";
    }
  }

  /** Changing the quote-free text of a comment changes nothing that is read, wherever the comment stands, as long
      as both texts let a quoted string through or neither does. */
  lemma CommentTextIsNotRead(a: string, m: string, m': string, b: string)
    requires CommentText(m) && CommentText(m') && LetsThrough(m) == LetsThrough(m')
    ensures Structure(a + "(" + m + ")" + b) == Structure(a + "(" + m' + ")" + b)
  {
    var c, c' := "(" + m + ")", "(" + m' + ")";
    LetsThroughComment(m);
    LetsThroughComment(m');
    var kept, before, after := BlankAround(a, c, c', b);
    AroundComment(a, m, b);
    AroundComment(a, m', b);
    if kept {
      CommentTextIsGone(before, m, m', after);
      AroundComment(before, m, after);
      AroundComment(before, m', after);
    }
  }

  /** Text without quotes and parentheses. */
  predicate Simple(s: string) { forall i :: 0 <= i < |s| ==> s[i] !in {'"', '(', ')'} }

  predicate NoParens(s: string) { forall i :: 0 <= i < |s| ==> s[i] !in {'(', ')'} }

  lemma StripPlain(s: string)
    requires NoParens(s)
    ensures StripComments(s) == s
  {
    StripIsScan(s);
    ScanPlain([""], s);
    NothingBefore(s);
  }

  lemma ScanOn(x: string, s: string)
    requires NoParens(s)
    ensures ScanFrom([x], s) == [x + s]
  {
    ScanPlain([x], s);
  }

  /** A comment between texts without parentheses is a space. */
  lemma StripOne(a: string, m: string, b: string)
    requires NoParens(a) && NoParens(b) && Balanced(m, 0)
    ensures StripComments(a + "(" + m + ")" + b) == a + " " + b
  {
    var space := " ";
    StripIsScan(a + "(" + m + ")" + b);
    ScanAround(a, m, b);
    ScanOn("", a);
    NothingBefore(a);
    ScanOn(a, space);
    ScanOn(a + space, b);
  }

  lemma {:induction false} BlankSimple(s: string)
    requires '"' !in s
    ensures BlankQuoted(s) == s && QuotedEnd(s).None?
    decreases |s|
  {
    if s != "" {
      BlankSimple(s[1..]);
      if s[0] == '\\' && |s| >= 2 {
        BlankSimple(s[2..]);
      }
      assert s == [s[0]] + s[1..];
    }
  }

  lemma QuoteFirst(d: string)
    requires Simple(d)
    ensures QuotedEnd("\"" + d) == Some(0) && BlankQuoted("\"" + d) == "\"" + d && BlankQuoted(d) == d
  {
    BlankSimple(d);
    BlankSkips('"', d);
  }

  /** A quoted string that only a comment stands in. */
  lemma QuoteOver(c: string, b: string)
    requires Comment(c) && Through(c) && QuotedEnd(b) == Some(0)
    ensures BlankQuoted("\"" + (c + b)) == "\"\"" + BlankQuoted(b[1..])
  {
    QuotedEndPast(c, b);
    DropPast("", c, b, 1);
    NothingBefore(c + b);
    BlankHits(c + b, |c|, b[1..]);
  }

  lemma QuoteBefore(c: string, b: string)
    requires Comment(c) && !Through(c) && QuotedEnd(b) == Some(0)
    ensures BlankQuoted("\"" + (c + b)) == "\"" + (c + BlankQuoted(b))
  {
    QuotedEndPast(c, b);
    BlankSkips('"', c + b);
    BlankNoQuote(c, b);
  }

  lemma Apart(p: string, m: string, d: string)
    ensures (p + "\"") + "(" + m + ")" + ("\"" + d) == p + ("\"" + (("(" + m + ")") + ("\"" + d)))
    ensures p + ("\"\"" + d) == p + "\"\"" + d && (p + "\"") + " " + ("\"" + d) == p + "\" \"" + d
  {
  }

  /** Between two quotes a comment is swallowed by the quoted string if its text lets it through, else it is read
      as a comment between two lone quotes. */
  lemma BetweenQuotes(p: string, m: string, d: string)
    requires Simple(p) && CommentText(m) && Simple(d)
    ensures Structure((p + "\"") + "(" + m + ")" + ("\"" + d)) == if LetsThrough(m) then p + "\"\"" + d else p + "\" \"" + d
  {
    var c := "(" + m + ")";
    LetsThroughComment(m);
    Apart(p, m, d);
    BlankNoQuote(p, "\"" + (c + ("\"" + d)));
    QuoteFirst(d);
    if LetsThrough(m) {
      QuoteOver(c, "\"" + d);
      assert ("\"" + d)[1..] == d;
      StripPlain(p + "\"\"" + d);
    } else {
      QuoteBefore(c, "\"" + d);
      StripOne(p + "\"", m, "\"" + d);
    }
  }

  /** Two quote-free texts of a comment are read alike everywhere exactly when both let a quoted string through or
      neither does. */
  lemma CommentTextIsNotReadIff(m: string, m': string)
    requires CommentText(m) && CommentText(m')
    ensures (forall a, b :: Structure(a + "(" + m + ")" + b) == Structure(a + "(" + m' + ")" + b))
       <==> LetsThrough(m) == LetsThrough(m')
  {
    if LetsThrough(m) == LetsThrough(m') {
      forall a, b
        ensures Structure(a + "(" + m + ")" + b) == Structure(a + "(" + m' + ")" + b)
      {
        CommentTextIsNotRead(a, m, m', b);
      }
    } else {
      BetweenQuotes("", m, "");
      BetweenQuotes("", m', "");
    }
  }

  lemma AroundComment(a: string, m: string, b: string)
    ensures a + (("(" + m + ")") + b) == a + "(" + m + ")" + b
  {
  }

  /** Every quoted string that starts in `a` also ends in it. */
  predicate QuotesClosed(a: string)
    decreases |a|
  {
    a == "" ||
    if a[0] != '"' then QuotesClosed(a[1..])
    else QuotedEnd(a[1..]).Some? && QuotesClosed(a[QuotedEnd(a[1..]).value + 2..])
  }

  lemma {:induction false} QuotedEndStays(a: string, x: string)
    requires QuotedEnd(a).Some?
    ensures QuotedEnd(a + x) == QuotedEnd(a)
    decreases |a|
  {
    if a[0] != '"' {
      var n := if a[0] == '\\' then 2 else 1;
      DropFront(a, x, n);
      QuotedEndStays(a[n..], x);
    }
  }

  lemma {:induction false} BlankAfterClosed(a: string, x: string)
    requires QuotesClosed(a)
    ensures BlankQuoted(a + x) == BlankQuoted(a) + BlankQuoted(x)
    decreases |a|
  {
    if a == "" {
      assert a + x == x;
    } else {
      var rest := a[1..];
      assert a + x == [a[0]] + (rest + x);
      if a[0] == '"' {
        var n := QuotedEnd(rest).value;
        QuotedEndStays(rest, x);
        BlankHitsFront(rest, x, n);
        assert rest[n + 1..] == a[n + 2..];
        BlankAfterClosed(a[n + 2..], x);
        Regroup("\"\"", BlankQuoted(a[n + 2..]), BlankQuoted(x));
      } else {
        BlankSkips(a[0], rest + x);
        BlankAfterClosed(rest, x);
      }
    }
  }

  /** Outside quoted strings no quote-free text of a comment is read. */
  lemma CommentOutsideQuotesIsNotRead(a: string, m: string, m': string, b: string)
    requires CommentText(m) && CommentText(m') && QuotesClosed(a)
    ensures Structure(a + "(" + m + ")" + b) == Structure(a + "(" + m' + ")" + b)
  {
    AroundComment(a, m, b);
    AroundComment(a, m', b);
    BlankAfterClosed(a, ("(" + m + ")") + b);
    BlankAfterClosed(a, ("(" + m' + ")") + b);
    BlankNoQuote("(" + m + ")", b);
    BlankNoQuote("(" + m' + ")", b);
    AroundComment(BlankQuoted(a), m, BlankQuoted(b));
    AroundComment(BlankQuoted(a), m', BlankQuoted(b));
    CommentTextIsGone(BlankQuoted(a), m, m', BlankQuoted(b));
  }

  // ----- the verdict -----

  datatype Verdict = Pass | Fail | Unknown

  datatype Result = Result(verdict: Verdict, address: Option<string>, domain: Option<string>, reason: string)

  /** What follows the last `at`; the whole text when there is none. */
  function AfterLast(s: string, at: char): string {
    if at !in s then s else AfterLast(s[1..], at)
  }

  function Domain(address: string): string { TrimEnd(AfterLast(address, '@'), '.') }

  function Answer(verdict: Verdict, address: Option<string>, reason: string): Result {
    Result(verdict, address, if address.Some? && address.value != "" then Some(Domain(address.value)) else None, reason)
  }

  /** `key=value` words, lowercased, quotes around the value dropped; of equal keys the last counts. */
  function Props(words: seq<string>): map<string, string> {
    if words == [] then map[]
    else
      var n := |words| - 1;
      var word, before := Lower(words[n]), Props(words[..n]);
      if '=' !in words[n] then before
      else
        var (key, value) := Partition(word, '=');
        before[key := Trim(value, '"')]
  }

  /** The results that state DMARC. */
  function DmarcOf(parts: seq<string>): (r: seq<map<string, string>>)
    ensures forall props :: props in r ==> "dmarc" in props
  {
    if parts == [] then []
    else
      var props := Props(Words(parts[0]));
      (if "dmarc" in props then [props] else []) + DmarcOf(parts[1..])
  }

  /** The verdict on an address from the structure of the topmost header. */
  function HeaderVerdict(address: string, domain: string, authservId: string, structure: string): Result {
    var parts := Split(structure, ';');
    var first := Words(parts[0]);
    if Lower(if first == [] then "" else first[0]) != Lower(authservId) then
      Answer(Unknown, Some(address), "no_trusted_result")
    else
      var dmarc := DmarcOf(parts[1..]);
      if |dmarc| > 1 then Answer(Unknown, Some(address), "ambiguous_dmarc_result")
      else if dmarc == [] then Answer(Unknown, Some(address), "no_dmarc_result")
      else if TrimEnd(if "header.from" in dmarc[0] then dmarc[0]["header.from"] else "", '.') != domain then
        Answer(Unknown, Some(address), "dmarc_domain_mismatch")
      else
        assert dmarc[0] in dmarc;
        var result := dmarc[0]["dmarc"];
        Answer(if result == "pass" then Pass else if result == "fail" then Fail else Unknown,
               Some(address), "dmarc_" + result)
  }

  /** The verdict, given how many From headers there are, the addresses in them, the configured
      authserv-id and the Authentication-Results headers, topmost first. */
  function SenderVerdict(froms: nat, addresses: seq<string>, authservId: string, results: seq<string>): Result {
    if froms > 1 || |addresses| > 1 then Answer(Fail, None, "multiple_from")
    else
      var address := if addresses == [] then "" else Lower(Strip(addresses[0]));
      var domain := if '@' in address then Domain(address) else "";
      if domain == "" then Answer(Unknown, None, "no_from_domain")
      else if authservId == "" then Answer(Unknown, Some(address), "authserv_id_unconfigured")
      else HeaderVerdict(address, domain, authservId, if results == [] then "" else Structure(results[0]))
  }

  /** Changing the quote-free text of a comment never changes the verdict. */
  lemma VerdictIgnoresComments(
    froms: nat, addresses: seq<string>, authservId: string, rest: seq<string>,
    a: string, m: string, m': string, b: string)
    requires CommentText(m) && CommentText(m') && LetsThrough(m) == LetsThrough(m')
    ensures SenderVerdict(froms, addresses, authservId, [a + "(" + m + ")" + b] + rest)
         == SenderVerdict(froms, addresses, authservId, [a + "(" + m' + ")" + b] + rest)
  {
    CommentTextIsNotRead(a, m, m', b);
  }

  lemma DomainOfUser()
    ensures Lower(Strip("u@d")) == "u@d" && Domain("u@d") == "d"
  {
    assert "u@d"[1..] == "@d" && "@d"[1..] == "d" && "d"[1..] == "";
    assert AfterLast("u@d", '@') == "d" by {
      assert AfterLast("@d", '@') == AfterLast("d", '@') == "d";
    }
  }

  /** An authserv-id of one word, as servers have it. */
  predicate Ordinary(authservId: string) {
    authservId != "" && NoBlank(authservId) && Simple(authservId) && ';' !in authservId
  }

  function Prop(key: string, value: string): string { key + "=" + value }

  /** `key=value` as one lower-case word. */
  predicate PropWord(key: string, value: string) {
    '=' !in key && NoBlank(Prop(key, value)) && forall i :: 0 <= i < |Prop(key, value)| ==> !('A' <= Prop(key, value)[i] <= 'Z')
  }

  lemma OneMoreProp(before: seq<string>, key: string, value: string)
    requires PropWord(key, value)
    ensures Props(before + [Prop(key, value)]) == Props(before)[key := Trim(value, '"')]
  {
    var word := Prop(key, value);
    var words := before + [word];
    assert words[..|words| - 1] == before && word[|key|] == '=';
    LowerStays(word);
    PartitionAt(key, '=', value);
    assert key + ['='] + value == word;
  }

  lemma NoProp(before: seq<string>, word: string)
    requires '=' !in word
    ensures Props(before + [word]) == Props(before)
  {
    assert (before + [word])[..|before|] == before;
  }

  lemma TwoProps(k: string, v: string, k': string, v': string)
    requires PropWord(k, v) && PropWord(k', v') && k != k'
    ensures Props([Prop(k, v)] + [Prop(k', v')]) == map[k := Trim(v, '"'), k' := Trim(v', '"')]
  {
    OneMoreProp([], k, v);
    assert [] + [Prop(k, v)] == [Prop(k, v)];
    OneMoreProp([Prop(k, v)], k', v');
  }

  /** A result of two properties, and what a word after them that is none adds to it. */
  lemma TwoWords(k: string, v: string, k': string, v': string, tail: string)
    requires PropWord(k, v) && PropWord(k', v') && k != k' && tail != "" && NoBlank(tail) && '=' !in tail
    ensures var props := map[k := Trim(v, '"'), k' := Trim(v', '"')];
      && Props(Words(Prop(k, v) + " " + Prop(k', v'))) == props
      && Props(Words(Prop(k, v) + " " + (Prop(k', v') + " " + tail))) == props
  {
    var a, b := Prop(k, v), Prop(k', v');
    TwoProps(k, v, k', v');
    WordsHead(a, b);
    WordAlone(b);
    WordsHead(a, b + " " + tail);
    WordsHead(b, tail);
    WordAlone(tail);
    NoProp([a] + [b], tail);
    assert [a] + ([b] + [tail]) == [a] + [b] + [tail];
  }

  lemma Trimmed(pass: string, joined: string, quote: string)
    requires pass == "pass" && joined == "\"\"d" && quote == "\""
    ensures Trim(pass, '"') == pass && Trim(joined, '"') == "d" && Trim(quote, '"') == ""
  {
    var d := joined[1..][1..];
    assert d == "d" && Trim(d, '"') == TrimEnd(d, '"') == d;
    assert Trim(joined, '"') == Trim(joined[1..], '"') == Trim(d, '"');
    assert quote[1..] == "" && Trim(pass, '"') == TrimEnd(pass, '"');
  }

  /** The verdict on a header with one result. */
  lemma OneResult(address: string, domain: string, authservId: string, part: string)
    requires Ordinary(authservId) && ';' !in part && "dmarc" in Props(Words(part)) && Props(Words(part))["dmarc"] == "pass"
    requires "header.from" in Props(Words(part))
    ensures HeaderVerdict(address, domain, authservId, authservId + [';'] + part).verdict
         == if TrimEnd(Props(Words(part))["header.from"], '.') == domain then Pass else Unknown
  {
    SplitHead(authservId, ';', part);
    SplitWhole(part, ';');
    WordAlone(authservId);
    assert ([authservId] + [part])[1..] == [part] && [part][1..] == [];
    assert DmarcOf([part]) == [Props(Words(part))] + DmarcOf([]);
    assert DmarcOf([part])[0] == Props(Words(part));
  }

  /** A header up to its quoted string. */
  function Opening(authservId: string): string { authservId + ";dmarc=pass header.from=" }

  /** What follows the authserv-id. */
  function Stating(value: string): string { Prop("dmarc", "pass") + " " + Prop("header.from", value) }

  lemma Resulting(authservId: string, q: string, d: string)
    ensures Opening(authservId) + q + d == authservId + [';'] + Stating(q + d)
  {
    assert ";dmarc=pass header.from=" == [';'] + ("dmarc" + "=" + "pass" + " " + "header.from" + "=");
  }

  lemma AreProps(key: string, value: string, from: string, domain: string)
    requires key == "dmarc" && value == "pass" && from == "header.from" && domain in {"\"\"d", "\""}
    ensures PropWord(key, value) && PropWord(from, domain) && ';' !in Prop(key, value) && ';' !in Prop(from, domain)
    ensures key != from
  {
    assert |key| == 5 && |from| == 11;
    assert '=' !in key && '=' !in from;
  }

  /** The domain that a quoted string leaves, and that one with a break in it leaves. */
  lemma Stated(joined: string, quote: string, tail: string)
    requires joined == "\"\"d" && quote == "\"" && tail == "\"d"
    ensures Props(Words(Stating(joined))) == map["dmarc" := "pass", "header.from" := "d"]
    ensures Props(Words(Stating(quote + " " + tail))) == map["dmarc" := "pass", "header.from" := ""]
    ensures ';' !in Stating(joined) && ';' !in Stating(quote + " " + tail)
  {
    var key, pass, from := "dmarc", "pass", "header.from";
    AreProps(key, pass, from, joined);
    AreProps(key, pass, from, quote);
    TwoWords(key, pass, from, joined, tail);
    TwoWords(key, pass, from, quote, tail);
    Trimmed(pass, joined, quote);
    assert Stating(quote + " " + tail) == Prop(key, pass) + " " + (Prop(from, quote) + " " + tail);
  }

  lemma DecidesBetween(authservId: string, m: string, d: string)
    requires Ordinary(authservId) && CommentText(m) && d == "d"
    ensures HeaderVerdict("u@d", d, authservId, Structure((Opening(authservId) + "\"") + "(" + m + ")" + ("\"" + d))).verdict
         == if LetsThrough(m) then Pass else Unknown
  {
    var q := if LetsThrough(m) then "\"\"" else "\" \"";
    BetweenQuotes(Opening(authservId), m, d);
    Stated("\"\"" + d, "\"", "\"" + d);
    assert "\"" + " " + ("\"" + d) == "\" \"" + d;
    Resulting(authservId, q, d);
    OneResult("u@d", d, authservId, Stating(q + d));
  }

  /** A comment in the quoted string before a domain decides between two verdicts. */
  lemma CommentDecides(authservId: string, m: string, d: string)
    requires Ordinary(authservId) && CommentText(m) && d == "d"
    ensures SenderVerdict(1, ["u@d"], authservId, [(Opening(authservId) + "\"") + "(" + m + ")" + ("\"" + d)] + []).verdict
         == if LetsThrough(m) then Pass else Unknown
  {
    DomainOfUser();
    DecidesBetween(authservId, m, d);
  }

  /** Every verdict is the same for both texts of a comment of the topmost header. */
  ghost predicate SameVerdicts(authservId: string, m: string, m': string) {
    forall froms, addresses, a, b, rest ::
      SenderVerdict(froms, addresses, authservId, [a + "(" + m + ")" + b] + rest).verdict
      == SenderVerdict(froms, addresses, authservId, [a + "(" + m' + ")" + b] + rest).verdict
  }

  lemma VerdictsAgree(authservId: string, m: string, m': string)
    requires CommentText(m) && CommentText(m') && LetsThrough(m) == LetsThrough(m')
    ensures SameVerdicts(authservId, m, m')
  {
    forall froms, addresses, a, b, rest
      ensures SenderVerdict(froms, addresses, authservId, [a + "(" + m + ")" + b] + rest).verdict
           == SenderVerdict(froms, addresses, authservId, [a + "(" + m' + ")" + b] + rest).verdict
    {
      VerdictIgnoresComments(froms, addresses, authservId, rest, a, m, m', b);
    }
  }

  lemma SameVerdict(authservId: string, m: string, m': string, address: string, a: string, b: string)
    requires SameVerdicts(authservId, m, m')
    ensures SenderVerdict(1, [address], authservId, [a + "(" + m + ")" + b] + []).verdict
         == SenderVerdict(1, [address], authservId, [a + "(" + m' + ")" + b] + []).verdict
  {
  }

  lemma VerdictsDiffer(authservId: string, m: string, m': string)
    requires Ordinary(authservId) && CommentText(m) && CommentText(m') && LetsThrough(m) != LetsThrough(m')
    ensures !SameVerdicts(authservId, m, m')
  {
    CommentDecides(authservId, m, "d");
    CommentDecides(authservId, m', "d");
    if SameVerdicts(authservId, m, m') {
      SameVerdict(authservId, m, m', "u@d", Opening(authservId) + "\"", "\"" + "d");
      assert false;
    }
  }

  /** For any authserv-id of one word, changing the quote-free text of a comment never changes a verdict exactly when
      both texts let a quoted string through or neither does. */
  lemma VerdictIgnoresCommentsIff(authservId: string, m: string, m': string)
    requires Ordinary(authservId) && CommentText(m) && CommentText(m')
    ensures SameVerdicts(authservId, m, m') <==> LetsThrough(m) == LetsThrough(m')
  {
    if LetsThrough(m) == LetsThrough(m') {
      VerdictsAgree(authservId, m, m');
    } else {
      VerdictsDiffer(authservId, m, m');
    }
  }

  /** The boundary: a header folded after a backslash in a comment keeps a quoted string from ending, and no text
      without a line break is read like it. */
  lemma LineBreakIsRead(p: string, m: string, d: string)
    requires Simple(p) && m == "\\\n " && Simple(d)
    ensures CommentText(m) && !LetsThrough(m)
    ensures Structure((p + "\"") + "(" + m + ")" + ("\"" + d)) == p + "\" \"" + d
    ensures forall n :: CommentText(n) && '\n' !in n ==> Structure((p + "\"") + "(" + n + ")" + ("\"" + d)) == p + "\"\"" + d
  {
    assert m[1..] == "\n " && m[1..][1..] == " " && m[1..][1..][1..] == "";
    assert Balanced(m[1..][1..], 0) && Balanced(m[1..], 0);
    assert (m + ")")[0] == '\\' && (m + ")")[1] == '\n';
    BetweenQuotes(p, m, d);
    forall n | CommentText(n) && '\n' !in n
      ensures Structure((p + "\"") + "(" + n + ")" + ("\"" + d)) == p + "\"\"" + d
    {
      OneLineLetsThrough(n);
      BetweenQuotes(p, n, d);
    }
  }
}
