/**
 Text that, posted in a user's name, addresses and runs nothing.

 Such a text has no `@`, no `://`, and no slash after its leading blanks. Joining plain pieces around a separator
 that has no slash and does not end in a colon makes no link, and the lead of a joined text is that of its first
 piece that is not blank. Splitting undoes joining.
 */
module PlainText {
  import opened Text

  predicate LeadsWithSlash(s: string) {
    var t := LStrip(s);
    t != "" && t[0] == '/'
  }

  predicate LinkAt(s: string, i: nat)
    requires i + 2 < |s|
  {
    s[i] == ':' && s[i + 1] == '/' && s[i + 2] == '/'
  }

  predicate NoLink(s: string) {
    && '@' !in s
    && forall i :: 0 <= i < |s| - 2 ==> !LinkAt(s, i)
  }

  predicate Plain(s: string) {
    !LeadsWithSlash(s) && NoLink(s)
  }

  lemma {:induction false} LeadOfAppend(a: string, b: string)
    ensures LeadsWithSlash(a + b) == if AllSpace(a) then LeadsWithSlash(b) else LeadsWithSlash(a)
  {
    if a == "" {
      assert a + b == b;
    } else {
      assert (a + b)[1..] == a[1..] + b;
      if PySpace(a[0]) {
        LeadOfAppend(a[1..], b);
        assert AllSpace(a) <==> AllSpace(a[1..]) by {
          assert forall i :: 1 <= i < |a| ==> a[i] == a[1..][i - 1];
        }
      }
    }
  }

  /** Joining link-free pieces around a separator without a slash, and not ending in a colon, makes no link. */
  lemma JoinedNoLink(a: string, sep: string, b: string)
    requires NoLink(a) && NoLink(b) && sep != ""
    requires '/' !in sep && '@' !in sep && sep[|sep| - 1] != ':'
    ensures NoLink(a + sep + b)
  {
    var s := a + sep + b;
    var m := |a| + |sep|;
    forall i | 0 <= i < |s| - 2 ensures !LinkAt(s, i) {
      if i + 2 < |a| {
        assert s[i] == a[i] && s[i + 1] == a[i + 1] && s[i + 2] == a[i + 2];
        assert !LinkAt(a, i);
      } else if i < |a| {
        assert s[|a|] == sep[0];
        assert |a| == i + 1 || |a| == i + 2;
      } else if i < m {
        assert s[i] == sep[i - |a|];
        if i + 1 < m {
          assert s[i + 1] == sep[i + 1 - |a|];
        }
      } else {
        assert s[i] == b[i - m] && s[i + 1] == b[i + 1 - m] && s[i + 2] == b[i + 2 - m];
        assert !LinkAt(b, i - m);
      }
    }
  }

  /** Part of a link-free text is link-free. */
  lemma SliceNoLink(s: string, n: nat)
    requires NoLink(s) && n <= |s|
    ensures NoLink(s[..n])
  {
    forall i | 0 <= i < n - 2 ensures !LinkAt(s[..n], i) {
      assert !LinkAt(s, i);
    }
  }

  /** `sep.join(parts)`. */
  function Join(parts: seq<string>, sep: string): string {
    if parts == [] then "" else if |parts| == 1 then parts[0] else parts[0] + sep + Join(parts[1..], sep)
  }

  lemma {:induction false} JoinNoLink(parts: seq<string>, sep: string)
    requires forall i :: 0 <= i < |parts| ==> NoLink(parts[i])
    requires sep != "" && '/' !in sep && '@' !in sep && sep[|sep| - 1] != ':'
    ensures NoLink(Join(parts, sep))
  {
    if |parts| > 1 {
      JoinNoLink(parts[1..], sep);
      JoinedNoLink(parts[0], sep, Join(parts[1..], sep));
    }
  }

  lemma {:induction false} JoinSnoc(init: seq<string>, last: string, sep: string)
    requires init != []
    ensures Join(init + [last], sep) == Join(init, sep) + (sep + last)
  {
    if |init| == 1 {
      assert (init + [last])[1..] == [last];
    } else {
      assert (init + [last])[1..] == init[1..] + [last];
      JoinSnoc(init[1..], last, sep);
    }
  }

  /** Parts without the separator, joined by it, split into themselves. */
  lemma {:induction false} SplitJoin(parts: seq<string>, sep: char)
    requires parts != [] && forall i :: 0 <= i < |parts| ==> sep !in parts[i]
    ensures Split(Join(parts, [sep]), sep) == parts
  {
    if |parts| == 1 {
      SplitWhole(parts[0], sep);
    } else {
      SplitJoin(parts[1..], sep);
      SplitHead(parts[0], sep, Join(parts[1..], [sep]));
      assert Join(parts, [sep]) == parts[0] + [sep] + Join(parts[1..], [sep]);
      assert parts == [parts[0]] + parts[1..];
    }
  }
}
