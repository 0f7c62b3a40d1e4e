/** The name an agent id gets on a reef host. */
module ReefNames {
  import opened Text

  /** `[a-zA-Z0-9_]{1,32}`: what an agent id is made of. */
  predicate AgentIdChar(c: char) { IsDigit(c) || 'a' <= c <= 'z' || 'A' <= c <= 'Z' || c == '_' }

  predicate AgentId(id: string) {
    1 <= |id| <= 32 && forall i :: 0 <= i < |id| ==> AgentIdChar(id[i])
  }

  predicate LowerLetter(c: char) { 'a' <= c <= 'z' }

  predicate NameEnd(c: char) { LowerLetter(c) || IsDigit(c) }

  /** `^[a-z](?:[a-z0-9-]{0,38}[a-z0-9])?$`: reef's rule for names. */
  predicate ReefName(name: string) {
    && 1 <= |name| <= 40
    && LowerLetter(name[0])
    && (forall i :: 0 <= i < |name| ==> NameEnd(name[i]) || name[i] == '-')
    && NameEnd(name[|name| - 1])
  }

  /** Lowercased, underscores to hyphens, no trailing hyphen, and a letter first. */
  function FleetName(agentId: string): string {
    var name := TrimEnd(ReplaceChar(Lower(agentId), '_', "-"), '-');
    if name != "" && (LowerLetter(name[0]) || 'A' <= name[0] <= 'Z') then name else "a" + name
  }

  /** What lowercasing and hyphenating make of one character. */
  function NameChar(c: char): char {
    if 'A' <= c <= 'Z' then ((c as int) + 32) as char else if c == '_' then '-' else c
  }

  lemma {:induction false} Hyphenated(id: string)
    ensures |ReplaceChar(Lower(id), '_', "-")| == |id|
    ensures forall i :: 0 <= i < |id| ==> ReplaceChar(Lower(id), '_', "-")[i] == NameChar(id[i])
  {
    if id != "" {
      Hyphenated(id[1..]);
      assert Lower(id)[1..] == Lower(id[1..]);
    }
  }

  lemma {:induction false} TrimEndIsPrefix(s: string, c: char)
    ensures TrimEnd(s, c) <= s
    ensures TrimEnd(s, c) != "" ==> TrimEnd(s, c)[|TrimEnd(s, c)| - 1] != c
  {
    if s != "" && s[|s| - 1] == c {
      TrimEndIsPrefix(s[..|s| - 1], c);
    }
  }

  lemma NameChars(agentId: string)
    requires AgentId(agentId)
    ensures var name := TrimEnd(ReplaceChar(Lower(agentId), '_', "-"), '-');
            && |name| <= 32
            && (forall i :: 0 <= i < |name| ==> NameEnd(name[i]) || name[i] == '-')
            && (name != "" ==> name[|name| - 1] != '-')
  {
    var full := ReplaceChar(Lower(agentId), '_', "-");
    Hyphenated(agentId);
    TrimEndIsPrefix(full, '-');
    var name := TrimEnd(full, '-');
    forall i | 0 <= i < |name| ensures NameEnd(name[i]) || name[i] == '-' {
      assert name[i] == full[i] == NameChar(agentId[i]);
      assert AgentIdChar(agentId[i]);
    }
  }

  /** Every valid agent id gets a valid reef name, those of digits or underscores alone included. */
  lemma FleetNameIsValid(agentId: string)
    requires AgentId(agentId)
    ensures ReefName(FleetName(agentId))
  {
    NameChars(agentId);
    var name := TrimEnd(ReplaceChar(Lower(agentId), '_', "-"), '-');
    if !(name != "" && LowerLetter(name[0])) {
      assert FleetName(agentId) == "a" + name;
    }
  }

  /** The id in lower case with hyphens for underscores, as far as its last character that is no underscore; with an
      `a` in front unless it starts with a letter. */
  lemma FleetNameIs(agentId: string) returns (kept: nat)
    requires AgentId(agentId)
    ensures kept <= |agentId| && (forall i :: kept <= i < |agentId| ==> agentId[i] == '_')
    ensures kept > 0 ==> agentId[kept - 1] != '_'
    ensures var name := FleetName(agentId);
      var front := if kept > 0 && NameChar(agentId[0]) != '-' && !IsDigit(agentId[0]) then "" else "a";
      front <= name && |name| == |front| + kept && forall i :: 0 <= i < kept ==> name[|front| + i] == NameChar(agentId[i])
  {
    var full := ReplaceChar(Lower(agentId), '_', "-");
    Hyphenated(agentId);
    TrimEndIsPrefix(full, '-');
    TrimmedAreHyphens(full);
    kept := |TrimEnd(full, '-')|;
    forall i | 0 <= i < |agentId| ensures full[i] == '-' <==> agentId[i] == '_' {
      assert AgentIdChar(agentId[i]) && full[i] == NameChar(agentId[i]);
    }
    if kept > 0 {
      assert AgentIdChar(agentId[0]) && TrimEnd(full, '-')[0] == full[0] == NameChar(agentId[0]);
    }
  }

  lemma {:induction false} TrimmedAreHyphens(s: string)
    ensures TrimEnd(s, '-') <= s && forall i :: |TrimEnd(s, '-')| <= i < |s| ==> s[i] == '-'
  {
    if s != "" && s[|s| - 1] == '-' {
      TrimmedAreHyphens(s[..|s| - 1]);
    }
  }
}
