/** The verdict over the results that a header states. */
module DmarcVerdict {
  import opened Options
  import opened Text
  import opened SenderAuth

  // ----- a header, printed from its results -----

  /** One `key=value` of a result. */
  datatype Stated = Stated(key: string, value: string)

  /** Text without blanks and separators. */
  predicate Token(s: string) { NoBlank(s) && Simple(s) && ';' !in s }

  predicate Printable(result: seq<Stated>) {
    forall k :: 0 <= k < |result| ==> Token(result[k].key) && Token(result[k].value) && '=' !in result[k].key
  }

  predicate AllPrintable(results: seq<seq<Stated>>) { forall i :: 0 <= i < |results| ==> Printable(results[i]) }

  function Word(s: Stated): string { s.key + "=" + s.value }

  function ResultText(result: seq<Stated>): string {
    if result == [] then "" else " " + Word(result[0]) + ResultText(result[1..])
  }

  function ResultTexts(results: seq<seq<Stated>>): (r: seq<string>)
    ensures |r| == |results| && forall i :: 0 <= i < |r| ==> r[i] == ResultText(results[i])
  {
    seq(|results|, i requires 0 <= i < |results| => ResultText(results[i]))
  }

  function Header(id: string, results: seq<seq<Stated>>): string { id + Rest(results) }

  function Rest(results: seq<seq<Stated>>): string {
    if results == [] then "" else ";" + ResultText(results[0]) + Rest(results[1..])
  }

  // ----- what a result says -----

  /** Of equal keys the last one counts; letters are read in lower case. */
  ghost predicate Says(result: seq<Stated>, key: string, value: string) {
    exists k :: 0 <= k < |result| && SaysAt(result, key, value, k)
  }

  predicate SaysAt(result: seq<Stated>, key: string, value: string, k: nat)
    requires k < |result|
  {
    && Lower(result[k].key) == key && Lower(result[k].value) == value
    && forall j :: k < j < |result| ==> Lower(result[j].key) != key
  }

  ghost predicate StatesDmarc(result: seq<Stated>) { exists value :: Says(result, "dmarc", value) }

  /** The one result that states DMARC. */
  ghost predicate OnlyOne(results: seq<seq<Stated>>, i: nat) {
    && i < |results| && StatesDmarc(results[i])
    && forall j :: 0 <= j < |results| && j != i ==> !StatesDmarc(results[j])
  }

  predicate AllDots(s: string) { forall i :: 0 <= i < |s| ==> s[i] == '.' }

  /** A host name, or the same one with dots at its end. */
  ghost predicate UpToDots(name: string, domain: string) { exists dots :: AllDots(dots) && name == domain + dots }

  predicate Undotted(domain: string) { domain == "" || domain[|domain| - 1] != '.' }

  /** What follows the last `@` of an address, its last dots left out. */
  ghost predicate DomainOf(address: string, domain: string) {
    Undotted(domain) && exists user, name :: address == user + "@" + name && '@' !in name && UpToDots(name, domain)
  }

  /** The result is about this domain. */
  ghost predicate Aligned(result: seq<Stated>, domain: string) {
    exists name :: Says(result, "header.from", name) && UpToDots(name, domain)
  }

  // ----- reading the header back -----

  lemma {:induction false} ResultIsSimple(result: seq<Stated>)
    requires Printable(result)
    ensures Simple(ResultText(result)) && ';' !in ResultText(result)
  {
    if result != [] {
      var rest := result[1..];
      assert forall k :: 0 <= k < |rest| ==> rest[k] == result[k + 1];
      ResultIsSimple(rest);
      assert Token(result[0].key) && Token(result[0].value);
    }
  }

  lemma {:induction false} RestIsSimple(results: seq<seq<Stated>>)
    requires AllPrintable(results)
    ensures Simple(Rest(results))
  {
    if results != [] {
      assert forall i :: 0 <= i < |results[1..]| ==> results[1..][i] == results[i + 1];
      ResultIsSimple(results[0]);
      RestIsSimple(results[1..]);
    }
  }

  lemma HeaderIsStructure(id: string, results: seq<seq<Stated>>)
    requires Token(id) && AllPrintable(results)
    ensures Structure(Header(id, results)) == Header(id, results)
  {
    RestIsSimple(results);
    var h := Header(id, results);
    assert Simple(h);
    BlankSimple(h);
    StripPlain(h);
  }

  lemma Tail(results: seq<seq<Stated>>)
    requires results != []
    ensures ResultTexts(results)[0] == ResultText(results[0]) && ResultTexts(results)[1..] == ResultTexts(results[1..])
    ensures forall j :: 0 <= j < |results[1..]| ==> results[1..][j] == results[j + 1]
  {
  }

  lemma SplitFirst(first: string, text: string, rest: string)
    requires ';' !in first
    ensures Split(first + (";" + text + rest), ';') == [first] + Split(text + rest, ';')
  {
    assert first + (";" + text + rest) == first + [';'] + (text + rest);
    SplitHead(first, ';', text + rest);
  }

  lemma SplitNone(first: string)
    requires ';' !in first
    ensures Split(first + Rest([]), ';') == [first]
  {
    assert first + "" == first;
    SplitWhole(first, ';');
  }

  lemma SplitStep(first: string, results: seq<seq<Stated>>)
    requires ';' !in first && results != []
    requires Split(ResultText(results[0]) + Rest(results[1..]), ';') == [ResultText(results[0])] + ResultTexts(results[1..])
    ensures Split(first + Rest(results), ';') == [first] + ResultTexts(results)
  {
    SplitFirst(first, ResultText(results[0]), Rest(results[1..]));
    assert ResultTexts(results) == [ResultText(results[0])] + ResultTexts(results[1..]);
  }

  lemma {:induction false} SplitHeader(first: string, results: seq<seq<Stated>>)
    requires ';' !in first && AllPrintable(results)
    ensures Split(first + Rest(results), ';') == [first] + ResultTexts(results)
    decreases |results|
  {
    if results == [] {
      SplitNone(first);
    } else {
      Tail(results);
      ResultIsSimple(results[0]);
      SplitHeader(ResultText(results[0]), results[1..]);
      SplitStep(first, results);
    }
  }

  function WordsOf(result: seq<Stated>): (r: seq<string>)
    ensures |r| == |result| && forall k :: 0 <= k < |r| ==> r[k] == Word(result[k])
  {
    seq(|result|, k requires 0 <= k < |result| => Word(result[k]))
  }

  lemma SpaceFirst(s: string)
    ensures Words(" " + s) == Words(s)
  {
    assert (" " + s)[1..] == s;
  }

  lemma WordFirst(word: string, rest: string)
    requires word != "" && NoBlank(word) && (rest == "" || rest[0] == ' ')
    ensures Words(word + rest) == [word] + Words(rest)
  {
    if rest == "" {
      assert word + "" == word;
      WordAlone(word);
    } else {
      assert rest == " " + rest[1..] && word + rest == word + " " + rest[1..];
      WordsHead(word, rest[1..]);
      SpaceFirst(rest[1..]);
    }
  }

  lemma WordIsWord(s: Stated)
    requires Token(s.key) && Token(s.value)
    ensures Word(s) != "" && NoBlank(Word(s))
  {
  }

  lemma ResultStarts(result: seq<Stated>)
    ensures ResultText(result) == "" || ResultText(result)[0] == ' '
  {
  }

  lemma ResultStep(word: string, rest: string)
    requires word != "" && NoBlank(word) && (rest == "" || rest[0] == ' ')
    ensures Words(" " + word + rest) == [word] + Words(rest)
  {
    assert " " + word + rest == " " + (word + rest);
    SpaceFirst(word + rest);
    WordFirst(word, rest);
  }

  lemma {:induction false} ResultWords(result: seq<Stated>)
    requires Printable(result)
    ensures Words(ResultText(result)) == WordsOf(result)
  {
    if result != [] {
      var rest := result[1..];
      assert forall k :: 0 <= k < |rest| ==> rest[k] == result[k + 1];
      ResultWords(rest);
      WordIsWord(result[0]);
      ResultStarts(rest);
      ResultStep(Word(result[0]), ResultText(rest));
      assert WordsOf(result) == [Word(result[0])] + WordsOf(rest);
    }
  }

  lemma {:induction false} LowerKeeps(s: string, c: char)
    requires c !in s && !('A' <= c <= 'Z') && !('a' <= c <= 'z')
    ensures c !in Lower(s)
  {
    if s != "" {
      LowerKeeps(s[1..], c);
    }
  }

  lemma {:induction false} LowerAppend(a: string, b: string)
    ensures Lower(a + b) == Lower(a) + Lower(b)
  {
    if a == "" {
      assert a + b == b;
    } else {
      assert (a + b)[1..] == a[1..] + b;
      LowerAppend(a[1..], b);
    }
  }

  lemma TrimNone(s: string, c: char)
    requires c !in s
    ensures Trim(s, c) == s
  {
  }

  lemma WordParts(s: Stated)
    requires Token(s.key) && Token(s.value) && '=' !in s.key
    ensures '=' in Word(s) && Partition(Lower(Word(s)), '=') == (Lower(s.key), Lower(s.value))
    ensures Trim(Lower(s.value), '"') == Lower(s.value)
  {
    assert Word(s)[|s.key|] == '=';
    LowerAppend(s.key + "=", s.value);
    LowerAppend(s.key, "=");
    LowerKeeps(s.key, '=');
    PartitionAt(Lower(s.key), '=', Lower(s.value));
    assert Lower("=") == ['='];
    LowerKeeps(s.value, '"');
    TrimNone(Lower(s.value), '"');
  }

  /** A result's properties are what it says. */
  lemma {:induction false} PropsAreSaid(result: seq<Stated>, key: string, value: string)
    requires Printable(result)
    ensures key in Props(WordsOf(result)) && Props(WordsOf(result))[key] == value <==> Says(result, key, value)
    decreases |result|
  {
    if result != [] {
      var n := |result| - 1;
      var init, last := result[..n], result[n];
      assert WordsOf(result)[..n] == WordsOf(init);
      PropsAreSaid(init, key, value);
      WordParts(last);
      SaysSnoc(init, last, key, value);
      assert init + [last] == result;
    }
  }

  lemma SaysSnoc(init: seq<Stated>, last: Stated, key: string, value: string)
    ensures Says(init + [last], key, value)
       <==> if Lower(last.key) == key then Lower(last.value) == value else Says(init, key, value)
  {
    var all, n := init + [last], |init|;
    assert all[n] == last;
    if Says(all, key, value) {
      var k :| 0 <= k < |all| && SaysAt(all, key, value, k);
      if k < n {
        assert Lower(all[n].key) != key;
        assert forall j :: 0 <= j < n ==> init[j] == all[j];
        assert SaysAt(init, key, value, k);
      }
    }
    if Lower(last.key) == key && Lower(last.value) == value {
      assert SaysAt(all, key, value, n);
    }
    if Lower(last.key) != key && Says(init, key, value) {
      var k :| 0 <= k < |init| && SaysAt(init, key, value, k);
      assert SaysAt(all, key, value, k);
    }
  }

  lemma ResultProps(result: seq<Stated>)
    requires Printable(result)
    ensures var props := Props(Words(ResultText(result)));
      && (forall key, value :: key in props && props[key] == value <==> Says(result, key, value))
      && ("dmarc" in props <==> StatesDmarc(result))
  {
    ResultWords(result);
    forall key, value
      ensures key in Props(WordsOf(result)) && Props(WordsOf(result))[key] == value <==> Says(result, key, value)
    {
      PropsAreSaid(result, key, value);
    }
    var props := Props(Words(ResultText(result)));
    if "dmarc" in props {
      assert Says(result, "dmarc", props["dmarc"]);
    }
  }

  // ----- the results that state DMARC -----

  lemma DmarcStep(results: seq<seq<Stated>>)
    requires results != [] && AllPrintable(results)
    ensures AllPrintable(results[1..])
    ensures DmarcOf(ResultTexts(results))
         == (if StatesDmarc(results[0]) then [Props(Words(ResultText(results[0])))] else []) + DmarcOf(ResultTexts(results[1..]))
  {
    Tail(results);
    ResultProps(results[0]);
  }

  lemma {:induction false} NoneState(results: seq<seq<Stated>>)
    requires AllPrintable(results) && forall j :: 0 <= j < |results| ==> !StatesDmarc(results[j])
    ensures DmarcOf(ResultTexts(results)) == []
    decreases |results|
  {
    if results != [] {
      Tail(results);
      DmarcStep(results);
      NoneState(results[1..]);
    }
  }

  lemma {:induction false} OneStates(results: seq<seq<Stated>>, i: nat)
    requires AllPrintable(results) && OnlyOne(results, i)
    ensures DmarcOf(ResultTexts(results)) == [Props(Words(ResultText(results[i])))]
    decreases |results|
  {
    Tail(results);
    DmarcStep(results);
    var rest := results[1..];
    if i == 0 {
      forall j | 0 <= j < |rest| ensures !StatesDmarc(rest[j]) {
        assert !StatesDmarc(results[j + 1]);
      }
      NoneState(rest);
    } else {
      assert !StatesDmarc(results[0]);
      forall j | 0 <= j < |rest| && j != i - 1 ensures !StatesDmarc(rest[j]) {
        assert !StatesDmarc(results[j + 1]);
      }
      OneStates(rest, i - 1);
    }
  }

  /** How many results state DMARC. */
  function Count(results: seq<seq<Stated>>): nat { |DmarcOf(ResultTexts(results))| }

  lemma CountStep(results: seq<seq<Stated>>)
    requires results != [] && AllPrintable(results)
    ensures AllPrintable(results[1..])
    ensures Count(results) == (if StatesDmarc(results[0]) then 1 else 0) + Count(results[1..])
  {
    DmarcStep(results);
  }

  function CountTrue(flags: seq<bool>): nat {
    if flags == [] then 0 else (if flags[0] then 1 else 0) + CountTrue(flags[1..])
  }

  lemma {:induction false} SomeTrue(flags: seq<bool>, i: nat)
    requires i < |flags| && flags[i]
    ensures CountTrue(flags) > 0
  {
    if i > 0 {
      SomeTrue(flags[1..], i - 1);
    }
  }

  lemma {:induction false} TwoTrue(flags: seq<bool>, i: nat, j: nat)
    requires i < j < |flags| && flags[i] && flags[j]
    ensures CountTrue(flags) > 1
  {
    if i == 0 {
      SomeTrue(flags[1..], j - 1);
    } else {
      TwoTrue(flags[1..], i - 1, j - 1);
    }
  }

  ghost function Flags(results: seq<seq<Stated>>): (r: seq<bool>)
    ensures |r| == |results|
  {
    if results == [] then [] else [StatesDmarc(results[0])] + Flags(results[1..])
  }

  lemma {:induction false} FlagAt(results: seq<seq<Stated>>, i: nat)
    requires i < |results|
    ensures Flags(results)[i] == StatesDmarc(results[i])
  {
    if i > 0 {
      FlagAt(results[1..], i - 1);
    }
  }

  lemma {:induction false} CountIs(results: seq<seq<Stated>>)
    requires AllPrintable(results)
    ensures Count(results) == CountTrue(Flags(results))
    decreases |results|
  {
    if results != [] {
      CountStep(results);
      CountIs(results[1..]);
      assert Flags(results)[1..] == Flags(results[1..]);
    }
  }

  lemma TwoState(results: seq<seq<Stated>>, i: nat, j: nat)
    requires AllPrintable(results) && i < j < |results| && StatesDmarc(results[i]) && StatesDmarc(results[j])
    ensures Count(results) > 1
  {
    FlagAt(results, i);
    FlagAt(results, j);
    TwoTrue(Flags(results), i, j);
    CountIs(results);
  }

  // ----- domains -----

  lemma {:induction false} TrimDots(domain: string, dots: string)
    requires AllDots(dots) && Undotted(domain)
    ensures TrimEnd(domain + dots, '.') == domain
    decreases |dots|
  {
    if dots == "" {
      assert domain + "" == domain;
    } else {
      var n := |dots| - 1;
      assert (domain + dots)[..|domain + dots| - 1] == domain + dots[..n];
      TrimDots(domain, dots[..n]);
    }
  }

  lemma {:induction false} TrimmedUpToDots(name: string)
    ensures Undotted(TrimEnd(name, '.')) && UpToDots(name, TrimEnd(name, '.'))
    decreases |name|
  {
    if name != "" && name[|name| - 1] == '.' {
      var n := |name| - 1;
      TrimmedUpToDots(name[..n]);
      var dots :| AllDots(dots) && name[..n] == TrimEnd(name[..n], '.') + dots;
      assert name == TrimEnd(name, '.') + (dots + ".");
      assert AllDots(dots + ".");
    } else {
      assert name == name + "" && AllDots("");
    }
  }

  /** A name is a domain up to dots exactly when dropping its last dots gives the domain. */
  lemma UpToDotsIff(name: string, domain: string)
    requires Undotted(domain)
    ensures UpToDots(name, domain) <==> TrimEnd(name, '.') == domain
  {
    if UpToDots(name, domain) {
      var dots :| AllDots(dots) && name == domain + dots;
      TrimDots(domain, dots);
    }
    TrimmedUpToDots(name);
  }

  lemma {:induction false} LastAt(user: string, name: string)
    requires '@' !in name
    ensures AfterLast(user + "@" + name, '@') == name
    decreases |user|
  {
    var s := user + "@" + name;
    assert s[|user|] == '@';
    if user == "" {
      assert s[1..] == name;
    } else {
      assert s[1..] == user[1..] + "@" + name;
      LastAt(user[1..], name);
    }
  }

  lemma DomainIs(address: string, domain: string)
    requires DomainOf(address, domain)
    ensures '@' in address && Domain(address) == domain
  {
    var user, name :| address == user + "@" + name && '@' !in name && UpToDots(name, domain);
    assert address[|user|] == '@';
    LastAt(user, name);
    UpToDotsIff(name, domain);
  }

  // ----- the verdict -----

  /** What a trusted header with this result alone on DMARC comes to. */
  ghost predicate ResultComes(r: Result, result: seq<Stated>, domain: string)
    requires StatesDmarc(result)
  {
    && (r.verdict == Pass <==> Aligned(result, domain) && Says(result, "dmarc", "pass"))
    && (r.verdict == Fail <==> Aligned(result, domain) && Says(result, "dmarc", "fail"))
    && (!Aligned(result, domain) ==> r.reason == "dmarc_domain_mismatch")
    && (Aligned(result, domain) ==> forall value :: Says(result, "dmarc", value) ==> r.reason == "dmarc_" + value)
  }

  /** What a header comes to: trusted if it is from our server, and then by the one result that states DMARC. */
  ghost predicate HeaderComes(r: Result, authservId: string, id: string, results: seq<seq<Stated>>, domain: string) {
    if !SameUpToCase(id, authservId) then r.verdict == Unknown && r.reason == "no_trusted_result"
    else if forall i :: 0 <= i < |results| ==> !StatesDmarc(results[i]) then
      r.verdict == Unknown && r.reason == "no_dmarc_result"
    else if forall i: nat :: !OnlyOne(results, i) then r.verdict == Unknown && r.reason == "ambiguous_dmarc_result"
    else forall i: nat :: OnlyOne(results, i) ==> ResultComes(r, results[i], domain)
  }

  lemma OneCounts(address: string, domain: string, result: seq<Stated>, props: map<string, string>, r: Result)
    requires Printable(result) && StatesDmarc(result) && props == Props(Words(ResultText(result))) && Undotted(domain) && domain != ""
    requires "dmarc" in props
    requires var name := if "header.from" in props then props["header.from"] else "";
      r == if TrimEnd(name, '.') != domain then Answer(Unknown, Some(address), "dmarc_domain_mismatch")
           else Answer(if props["dmarc"] == "pass" then Pass else if props["dmarc"] == "fail" then Fail else Unknown,
                       Some(address), "dmarc_" + props["dmarc"])
    ensures ResultComes(r, result, domain)
  {
    ResultProps(result);
    var name := if "header.from" in props then props["header.from"] else "";
    UpToDotsIff(name, domain);
    if "header.from" in props {
      assert Says(result, "header.from", name);
    }
    assert Says(result, "dmarc", props["dmarc"]);
  }

  /** The verdict once the header is taken apart. */
  lemma HeaderParts(address: string, domain: string, authservId: string, id: string, results: seq<seq<Stated>>)
    requires Ordinary(id) && AllPrintable(results)
    ensures var dmarc, r := DmarcOf(ResultTexts(results)), HeaderVerdict(address, domain, authservId, Header(id, results));
      && (!SameUpToCase(id, authservId) ==> r == Answer(Unknown, Some(address), "no_trusted_result"))
      && (SameUpToCase(id, authservId) && |dmarc| > 1 ==> r == Answer(Unknown, Some(address), "ambiguous_dmarc_result"))
      && (SameUpToCase(id, authservId) && dmarc == [] ==> r == Answer(Unknown, Some(address), "no_dmarc_result"))
  {
    SplitHeader(id, results);
    WordAlone(id);
    LowerIsCaseless(id, authservId);
    assert ([id] + ResultTexts(results))[1..] == ResultTexts(results);
  }

  lemma OneResultCounts(address: string, domain: string, authservId: string, id: string, results: seq<seq<Stated>>, i: nat)
    requires Ordinary(id) && AllPrintable(results) && Undotted(domain) && domain != "" && SameUpToCase(id, authservId)
    requires OnlyOne(results, i)
    ensures ResultComes(HeaderVerdict(address, domain, authservId, Header(id, results)), results[i], domain)
  {
    SplitHeader(id, results);
    WordAlone(id);
    LowerIsCaseless(id, authservId);
    assert ([id] + ResultTexts(results))[1..] == ResultTexts(results);
    OneStates(results, i);
    ResultProps(results[i]);
    var dmarc := DmarcOf(ResultTexts(results));
    assert dmarc[0] in dmarc;
    OneCounts(address, domain, results[i], dmarc[0], HeaderVerdict(address, domain, authservId, Header(id, results)));
  }

  lemma NotOnlyOne(results: seq<seq<Stated>>, i: nat)
    requires AllPrintable(results) && i < |results| && StatesDmarc(results[i]) && !OnlyOne(results, i)
    ensures |DmarcOf(ResultTexts(results))| > 1 && forall k: nat :: !OnlyOne(results, k)
  {
    var j :| 0 <= j < |results| && j != i && StatesDmarc(results[j]);
    if i < j {
      TwoState(results, i, j);
    } else {
      TwoState(results, j, i);
    }
  }

  lemma HeaderIs(address: string, domain: string, authservId: string, id: string, results: seq<seq<Stated>>)
    requires Ordinary(id) && AllPrintable(results) && Undotted(domain) && domain != ""
    ensures HeaderComes(HeaderVerdict(address, domain, authservId, Header(id, results)), authservId, id, results, domain)
  {
    HeaderParts(address, domain, authservId, id, results);
    if SameUpToCase(id, authservId) {
      if forall i :: 0 <= i < |results| ==> !StatesDmarc(results[i]) {
        NoneState(results);
      } else {
        var i :| 0 <= i < |results| && StatesDmarc(results[i]);
        if OnlyOne(results, i) {
          OneResultCounts(address, domain, authservId, id, results, i);
        } else {
          NotOnlyOne(results, i);
        }
      }
    }
  }

  /** One sender address with a domain is judged by the topmost header. */
  lemma OneSender(froms: nat, raw: string, authservId: string, header: string, later: seq<string>, domain: string)
    requires froms <= 1 && authservId != "" && DomainOf(Lower(Strip(raw)), domain) && domain != ""
    ensures SenderVerdict(froms, [raw], authservId, [header] + later)
         == HeaderVerdict(Lower(Strip(raw)), domain, authservId, Structure(header))
  {
    DomainIs(Lower(Strip(raw)), domain);
  }

  lemma AnswerCarries(address: string, domain: string, authservId: string, structure: string)
    requires DomainOf(address, domain)
    ensures var r := HeaderVerdict(address, domain, authservId, structure);
      r.address == Some(address) && r.domain == Some(domain)
  {
    DomainIs(address, domain);
  }

  /** For every header printed from an id and a list of results, one sender address with a domain, and an authserv-id:
      the verdict is Pass or Fail exactly when the id is ours, one result alone states DMARC, it is about the
      address's domain, and its value says so; else it is Unknown. The answer carries the address and its domain. */
  lemma VerdictOfResults(froms: nat, raw: string, authservId: string, id: string, results: seq<seq<Stated>>,
      later: seq<string>, domain: string)
    requires froms <= 1 && authservId != "" && Ordinary(id) && AllPrintable(results)
    requires DomainOf(Lower(Strip(raw)), domain) && domain != ""
    ensures var r := SenderVerdict(froms, [raw], authservId, [Header(id, results)] + later);
      && HeaderComes(r, authservId, id, results, domain)
      && r.address == Some(Lower(Strip(raw))) && r.domain == Some(domain)
  {
    var address, header := Lower(Strip(raw)), Header(id, results);
    OneSender(froms, raw, authservId, header, later, domain);
    HeaderIsStructure(id, results);
    AnswerCarries(address, domain, authservId, header);
    HeaderIs(address, domain, authservId, id, results);
  }

  /** Several From headers or addresses fail, whatever else there is. */
  lemma SeveralSendersFail(froms: nat, addresses: seq<string>, authservId: string, headers: seq<string>)
    requires froms > 1 || |addresses| > 1
    ensures SenderVerdict(froms, addresses, authservId, headers) == Result(Fail, None, None, "multiple_from")
  {
  }

  /** No address, or one without a domain, is never judged. */
  lemma NoDomainIsUnknown(froms: nat, addresses: seq<string>, authservId: string, headers: seq<string>)
    requires froms <= 1 && |addresses| <= 1
    requires |addresses| == 1 ==>
      '@' !in Lower(Strip(addresses[0])) || DomainOf(Lower(Strip(addresses[0])), "")
    ensures SenderVerdict(froms, addresses, authservId, headers) == Result(Unknown, None, None, "no_from_domain")
  {
    if |addresses| == 1 && '@' in Lower(Strip(addresses[0])) {
      DomainIs(Lower(Strip(addresses[0])), "");
    }
  }

  /** Without an authserv-id of our own, or without a header, nothing is trusted. */
  lemma NothingTrusted(froms: nat, raw: string, authservId: string, headers: seq<string>, domain: string)
    requires froms <= 1 && DomainOf(Lower(Strip(raw)), domain) && domain != ""
    requires authservId == "" || headers == []
    ensures SenderVerdict(froms, [raw], authservId, headers) == Result(Unknown, Some(Lower(Strip(raw))), Some(domain),
      if authservId == "" then "authserv_id_unconfigured" else "no_trusted_result")
  {
    DomainIs(Lower(Strip(raw)), domain);
    LowerLength(authservId);
    assert Split("", ';') == [""] && Words("") == [];
  }
}
