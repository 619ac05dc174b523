/** Speaker-tag normalisation of a transcript (`normalize_conversation_tags`).
    Each line is matched, ignoring ASCII case, against the agent pattern
    `^(?:Natalie\s*\(Agent\)|Agent\s*\([^)]*\)|Natalie|Agent)\s*:\s*(.*)$`
    and then against the user pattern `^User\s*:\s*(.*)$`. The matchers below
    follow the regular expression engine alternative by alternative and return
    the position in the line where group 1 starts; the predicates
    `IsAgentHead` and `IsUserHead` say declaratively which line prefixes the
    two patterns consume, and the lemmas prove that the two agree. */
module Tags {
  import opened Text

  // ---------------------------------------------------------------------
  // Positions in a line

  /** Every character of `line[i..j]` is whitespace. */
  predicate SpacesBetween(line: string, i: nat, j: nat)
    requires i <= j <= |line|
  {
    forall m :: i <= m < j ==> IsSpace(line[m])
  }

  /** Group 1 starting at `k` does not start with whitespace. */
  predicate NoSpaceAt(line: string, k: nat)
    requires k <= |line|
  {
    k == |line| || !IsSpace(line[k])
  }

  /** The lower-case word `w` occurs at position `i`, ignoring ASCII case. */
  predicate WordAt(line: string, i: nat, w: string)
  {
    i + |w| <= |line| && forall m :: 0 <= m < |w| ==> Lower(line[i + m]) == w[m]
  }

  /** One character of a word occurrence. */
  lemma WordAtChar(line: string, i: nat, w: string, m: nat)
    requires WordAt(line, i, w) && m < |w|
    ensures Lower(line[i + m]) == w[m]
  {
  }

  /** The greedy `\s*` from position `i`: where it stops. */
  function SkipSpaces(line: string, i: nat): (j: nat)
    requires i <= |line|
    ensures i <= j <= |line| && SpacesBetween(line, i, j) && NoSpaceAt(line, j)
    decreases |line| - i
  {
    if i < |line| && IsSpace(line[i]) then SkipSpaces(line, i + 1) else i
  }

  /** Whitespace up to a non-space is exactly what `\s*` consumes. */
  lemma SkipSpacesStops(line: string, i: nat, j: nat)
    requires i <= j <= |line| && SpacesBetween(line, i, j) && NoSpaceAt(line, j)
    ensures SkipSpaces(line, i) == j
  {
  }

  /** The greedy `[^)]*` from position `i`, followed by `\)`: where the first
      `c` at or after `i` is. */
  function IndexFrom(line: string, i: nat, c: char): (r: Option<nat>)
    requires i <= |line|
    ensures r.Some? ==> i <= r.value < |line| && line[r.value] == c
    ensures r.Some? ==> forall m :: i <= m < r.value ==> line[m] != c
    ensures r.None? ==> forall m :: i <= m < |line| ==> line[m] != c
    decreases |line| - i
  {
    if i == |line| then None
    else if line[i] == c then Some(i)
    else IndexFrom(line, i + 1, c)
  }

  lemma IndexFromFinds(line: string, i: nat, c: char, q: nat)
    requires i <= q < |line| && line[q] == c
    requires forall m :: i <= m < q ==> line[m] != c
    ensures IndexFrom(line, i, c) == Some(q)
  {
  }

  // ---------------------------------------------------------------------
  // The matcher, alternative by alternative

  /** `\s*:\s*` from position `i`: where group 1 then starts. */
  function ColonFrom(line: string, i: nat): (r: Option<nat>)
    requires i <= |line|
    ensures r.Some? ==> i < r.value <= |line| && NoSpaceAt(line, r.value)
  {
    var j := SkipSpaces(line, i);
    if j < |line| && line[j] == ':' then Some(SkipSpaces(line, j + 1)) else None
  }

  /** The alternative `Natalie\s*\(Agent\)`, then the colon. */
  function NatalieAgentMatch(line: string): (r: Option<nat>)
    ensures r.Some? ==> r.value <= |line| && NoSpaceAt(line, r.value)
  {
    if WordAt(line, 0, "natalie") then
      var j := SkipSpaces(line, 7);
      if WordAt(line, j, "(agent)") then ColonFrom(line, j + 7) else None
    else None
  }

  /** The alternative `Agent\s*\([^)]*\)`, then the colon. */
  function AgentNameMatch(line: string): (r: Option<nat>)
    ensures r.Some? ==> r.value <= |line| && NoSpaceAt(line, r.value)
  {
    if WordAt(line, 0, "agent") then
      var j := SkipSpaces(line, 5);
      if j < |line| && line[j] == '(' then
        match IndexFrom(line, j + 1, ')')
        case Some(q) => ColonFrom(line, q + 1)
        case None => None
      else None
    else None
  }

  /** A bare-word alternative (`Natalie`, `Agent`, `User`), then the colon. */
  function WordMatch(line: string, w: string): (r: Option<nat>)
    ensures r.Some? ==> r.value <= |line| && NoSpaceAt(line, r.value)
  {
    if WordAt(line, 0, w) then ColonFrom(line, |w|) else None
  }

  /** Where group 1 of the agent pattern starts, the alternatives tried in
      order; `None` when the line does not match. */
  function AgentMatch(line: string): (r: Option<nat>)
    ensures r.Some? ==> r.value <= |line| && NoSpaceAt(line, r.value)
  {
    var a := NatalieAgentMatch(line);
    if a.Some? then a
    else
      var b := AgentNameMatch(line);
      if b.Some? then b
      else
        var c := WordMatch(line, "natalie");
        if c.Some? then c else WordMatch(line, "agent")
  }

  /** Where group 1 of the user pattern starts. */
  function UserMatch(line: string): (r: Option<nat>)
    ensures r.Some? ==> r.value <= |line| && NoSpaceAt(line, r.value)
  {
    WordMatch(line, "user")
  }

  /** One line of `normalize_conversation_tags`: the agent pattern first,
      then the user pattern, otherwise the line unchanged. */
  function NormalizeLine(line: string): (r: string)
    ensures '\n' !in line ==> '\n' !in r
  {
    match AgentMatch(line)
    case Some(k) =>
      assert forall c :: c in line[k..] ==> c in line;
      "Agent: " + line[k..]
    case None =>
      match UserMatch(line)
      case Some(k) =>
        assert forall c :: c in line[k..] ==> c in line;
        "User: " + line[k..]
      case None => line
  }

  // ---------------------------------------------------------------------
  // What the patterns consume, stated declaratively

  /** `line[i..k]` is `\s*:\s*`. */
  predicate IsColonSep(line: string, i: nat, k: nat)
  {
    i <= k <= |line| &&
    exists j :: i <= j < k && line[j] == ':' && SpacesBetween(line, i, j) && SpacesBetween(line, j + 1, k)
  }

  /** `line[..e]` is `Natalie\s*\(Agent\)`. */
  predicate IsNatalieAgentTag(line: string, e: nat)
  {
    14 <= e <= |line| && WordAt(line, 0, "natalie") && WordAt(line, e - 7, "(agent)")
    && SpacesBetween(line, 7, e - 7)
  }

  /** `line[..e]` is `Agent\s*\([^)]*\)`. */
  predicate IsAgentNameTag(line: string, e: nat)
  {
    7 <= e <= |line| && WordAt(line, 0, "agent") && line[e - 1] == ')'
    && exists j :: 5 <= j < e - 1 && line[j] == '(' && SpacesBetween(line, 5, j)
                   && forall m :: j < m < e - 1 ==> line[m] != ')'
  }

  /** `line[..e]` is the word `w`, in any case. */
  predicate IsWordTag(line: string, e: nat, w: string)
  {
    e == |w| && WordAt(line, 0, w)
  }

  /** `line[..e]` is one of the four agent tags. */
  predicate IsAgentTag(line: string, e: nat)
  {
    IsNatalieAgentTag(line, e) || IsAgentNameTag(line, e)
    || IsWordTag(line, e, "natalie") || IsWordTag(line, e, "agent")
  }

  /** `line[..k]` is what the agent pattern consumes before group 1: an
      agent tag, then `\s*:\s*`. */
  predicate IsAgentHead(line: string, k: nat)
  {
    exists e :: 0 <= e <= k && IsAgentTag(line, e) && IsColonSep(line, e, k)
  }

  /** `line[..k]` is what the user pattern consumes before group 1. */
  predicate IsUserHead(line: string, k: nat)
  {
    IsWordTag(line, 4, "user") && IsColonSep(line, 4, k)
  }

  // ---------------------------------------------------------------------
  // The matcher agrees with the declarative description

  lemma ColonFromSound(line: string, i: nat)
    requires i <= |line| && ColonFrom(line, i).Some?
    ensures IsColonSep(line, i, ColonFrom(line, i).value)
  {
    var j := SkipSpaces(line, i);
    assert line[j] == ':';
  }

  lemma ColonFromComplete(line: string, i: nat, k: nat)
    requires IsColonSep(line, i, k) && NoSpaceAt(line, k)
    ensures ColonFrom(line, i) == Some(k)
    ensures var j := SkipSpaces(line, i); j < |line| && line[j] == ':'
  {
    var j :| i <= j < k && line[j] == ':' && SpacesBetween(line, i, j) && SpacesBetween(line, j + 1, k);
    SkipSpacesStops(line, i, j);
    SkipSpacesStops(line, j + 1, k);
  }

  /** Whatever the agent matcher returns, the line up to it is an agent
      head. */
  lemma AgentMatchSound(line: string)
    requires AgentMatch(line).Some?
    ensures IsAgentHead(line, AgentMatch(line).value)
  {
    if NatalieAgentMatch(line).Some? {
      NatalieAgentMatchSound(line);
    } else if AgentNameMatch(line).Some? {
      AgentNameMatchSound(line);
    } else if WordMatch(line, "natalie").Some? {
      WordMatchSound(line, "natalie");
    } else {
      WordMatchSound(line, "agent");
    }
  }

  /** A match of the first alternative ends an agent head. */
  lemma NatalieAgentMatchSound(line: string)
    requires NatalieAgentMatch(line).Some?
    ensures IsAgentHead(line, NatalieAgentMatch(line).value)
  {
    var j := SkipSpaces(line, 7);
    ColonFromSound(line, j + 7);
    assert IsNatalieAgentTag(line, j + 7);
  }

  /** A match of the second alternative ends an agent head. */
  lemma AgentNameMatchSound(line: string)
    requires AgentNameMatch(line).Some?
    ensures IsAgentHead(line, AgentNameMatch(line).value)
  {
    var j := SkipSpaces(line, 5);
    var q := IndexFrom(line, j + 1, ')').value;
    ColonFromSound(line, q + 1);
    assert IsAgentNameTag(line, q + 1);
  }

  /** A bare-word match consumes the word and then `\s*:\s*`. */
  lemma WordMatchSound(line: string, w: string)
    requires WordMatch(line, w).Some?
    ensures IsWordTag(line, |w|, w) && IsColonSep(line, |w|, WordMatch(line, w).value)
  {
    ColonFromSound(line, |w|);
  }


  /** Whatever the user matcher returns, the line up to it is a user head. */
  lemma UserMatchSound(line: string)
    requires UserMatch(line).Some?
    ensures IsUserHead(line, UserMatch(line).value)
  {
    ColonFromSound(line, 4);
  }

  lemma NatalieAgentComplete(line: string, e: nat, k: nat)
    requires IsNatalieAgentTag(line, e) && IsColonSep(line, e, k) && NoSpaceAt(line, k)
    ensures NatalieAgentMatch(line) == Some(k)
  {
    ColonFromComplete(line, e, k);
    WordAtChar(line, e - 7, "(agent)", 0);
    SkipSpacesStops(line, 7, e - 7);
  }

  lemma AgentNameComplete(line: string, e: nat, k: nat)
    requires IsAgentNameTag(line, e) && IsColonSep(line, e, k) && NoSpaceAt(line, k)
    ensures NatalieAgentMatch(line) == None && AgentNameMatch(line) == Some(k)
  {
    AgentIsNotNatalie(line);
    ColonFromComplete(line, e, k);
    var j :| 5 <= j < e - 1 && line[j] == '(' && SpacesBetween(line, 5, j)
             && forall m :: j < m < e - 1 ==> line[m] != ')';
    SkipSpacesStops(line, 5, j);
    IndexFromFinds(line, j + 1, ')', e - 1);
  }

  /** A line that starts with "agent" does not start with "natalie". */
  lemma AgentIsNotNatalie(line: string)
    requires WordAt(line, 0, "agent")
    ensures !WordAt(line, 0, "natalie") && NatalieAgentMatch(line) == None
  {
    WordAtChar(line, 0, "agent", 0);
    if WordAt(line, 0, "natalie") {
      WordAtChar(line, 0, "natalie", 0);
    }
  }

  lemma NatalieWordComplete(line: string, k: nat)
    requires IsWordTag(line, 7, "natalie") && IsColonSep(line, 7, k) && NoSpaceAt(line, k)
    ensures NatalieAgentMatch(line) == None && AgentNameMatch(line) == None
    ensures WordMatch(line, "natalie") == Some(k)
  {
    ColonFromComplete(line, 7, k);
    var j := SkipSpaces(line, 7);
    if WordAt(line, j, "(agent)") {
      WordAtChar(line, j, "(agent)", 0);
    }
    WordAtChar(line, 0, "natalie", 0);
    if WordAt(line, 0, "agent") {
      WordAtChar(line, 0, "agent", 0);
    }
  }

  lemma AgentWordComplete(line: string, k: nat)
    requires IsWordTag(line, 5, "agent") && IsColonSep(line, 5, k) && NoSpaceAt(line, k)
    ensures NatalieAgentMatch(line) == None && AgentNameMatch(line) == None
    ensures WordMatch(line, "natalie") == None && WordMatch(line, "agent") == Some(k)
  {
    ColonFromComplete(line, 5, k);
    WordAtChar(line, 0, "agent", 0);
    if WordAt(line, 0, "natalie") {
      WordAtChar(line, 0, "natalie", 0);
    }
  }

  /** Any agent head followed by a non-blank start of group 1 is found by the
      agent matcher, at that position. */
  lemma AgentMatchComplete(line: string, k: nat)
    requires k <= |line| && IsAgentHead(line, k) && NoSpaceAt(line, k)
    ensures AgentMatch(line) == Some(k)
  {
    var e :| 0 <= e <= k && IsAgentTag(line, e) && IsColonSep(line, e, k);
    if IsNatalieAgentTag(line, e) {
      NatalieAgentComplete(line, e, k);
    } else if IsAgentNameTag(line, e) {
      AgentNameComplete(line, e, k);
    } else if IsWordTag(line, e, "natalie") {
      NatalieWordComplete(line, k);
    } else {
      AgentWordComplete(line, k);
    }
  }

  /** A line whose first letter is neither 'n' nor 'a', in any case, matches
      no agent alternative. */
  lemma AgentMatchNeedsInitial(line: string)
    requires line != [] && Lower(line[0]) != 'n' && Lower(line[0]) != 'a'
    ensures AgentMatch(line) == None
  {
    if WordAt(line, 0, "natalie") {
      WordAtChar(line, 0, "natalie", 0);
    }
    if WordAt(line, 0, "agent") {
      WordAtChar(line, 0, "agent", 0);
    }
  }

  /** Any user head followed by a non-blank start of group 1 is found by the
      user matcher, and the agent pattern does not match that line. */
  lemma UserMatchComplete(line: string, k: nat)
    requires k <= |line| && IsUserHead(line, k) && NoSpaceAt(line, k)
    ensures UserMatch(line) == Some(k)
    ensures AgentMatch(line) == None
  {
    ColonFromComplete(line, 4, k);
    WordAtChar(line, 0, "user", 0);
    AgentMatchNeedsInitial(line);
  }

  // ---------------------------------------------------------------------
  // One line

  /** A line with an agent head has it replaced by "Agent: ". */
  lemma NormalizeAgentLine(line: string, k: nat)
    requires k <= |line| && IsAgentHead(line, k) && NoSpaceAt(line, k)
    ensures NormalizeLine(line) == "Agent: " + line[k..]
  {
    AgentMatchComplete(line, k);
  }

  /** A line with a user head has it replaced by "User: ". */
  lemma NormalizeUserLine(line: string, k: nat)
    requires k <= |line| && IsUserHead(line, k) && NoSpaceAt(line, k)
    ensures NormalizeLine(line) == "User: " + line[k..]
  {
    UserMatchComplete(line, k);
  }

  /** Any other line is kept as it is. */
  lemma NormalizeOtherLine(line: string)
    requires forall k :: 0 <= k <= |line| && NoSpaceAt(line, k) ==> !IsAgentHead(line, k) && !IsUserHead(line, k)
    ensures NormalizeLine(line) == line
  {
    if AgentMatch(line).Some? {
      AgentMatchSound(line);
    } else if UserMatch(line).Some? {
      UserMatchSound(line);
    }
  }

  /** "Agent: " followed by text that does not start with whitespace is an
      agent head of length 7. */
  lemma AgentPrefixIsHead(g: string)
    requires g == [] || !IsSpace(g[0])
    ensures var s := "Agent: " + g; NoSpaceAt(s, 7) && IsAgentHead(s, 7)
  {
    var s := "Agent: " + g;
    assert s[0] == 'A' && s[1] == 'g' && s[2] == 'e' && s[3] == 'n' && s[4] == 't';
    assert WordAt(s, 0, "agent");
    assert s[5] == ':' && s[6] == ' ';
    assert IsColonSep(s, 5, 7);
    assert IsAgentTag(s, 5);
  }

  /** "User: " followed by text that does not start with whitespace is a user
      head of length 6. */
  lemma UserPrefixIsHead(g: string)
    requires g == [] || !IsSpace(g[0])
    ensures var s := "User: " + g; NoSpaceAt(s, 6) && IsUserHead(s, 6)
  {
    var s := "User: " + g;
    assert s[0] == 'U' && s[1] == 's' && s[2] == 'e' && s[3] == 'r';
    assert WordAt(s, 0, "user");
    assert s[4] == ':' && s[5] == ' ';
    assert IsColonSep(s, 4, 6);
  }

  /** Normalising a line twice is normalising it once. */
  lemma NormalizeLineIdempotent(line: string)
    ensures NormalizeLine(NormalizeLine(line)) == NormalizeLine(line)
  {
    match AgentMatch(line)
    case Some(k) =>
      var s := "Agent: " + line[k..];
      AgentPrefixIsHead(line[k..]);
      NormalizeAgentLine(s, 7);
      assert s[7..] == line[k..];
    case None =>
      match UserMatch(line)
      case Some(k) =>
        var s := "User: " + line[k..];
        UserPrefixIsHead(line[k..]);
        NormalizeUserLine(s, 6);
        assert s[6..] == line[k..];
      case None =>
  }

  // ---------------------------------------------------------------------
  // The whole transcript

  /** Every line rewritten on its own, in order; lines free of '\n' stay
      free of it. */
  function NormalizeLines(lines: seq<string>): (r: seq<string>)
    ensures |r| == |lines|
    ensures forall i {:trigger NormalizeLine(lines[i])} :: 0 <= i < |lines| ==> r[i] == NormalizeLine(lines[i])
    ensures (forall i :: 0 <= i < |lines| ==> '\n' !in lines[i]) ==> forall i :: 0 <= i < |r| ==> '\n' !in r[i]
  {
    seq(|lines|, i requires 0 <= i < |lines| => NormalizeLine(lines[i]))
  }

  /** The transcript with every line rewritten: split on '\n', rewrite each
      line, join on '\n'. It has as many lines as the input, and each is
      the rewrite of the input line at the same place. */
  function NormalizedConversation(conversation: string): (r: string)
    ensures Split(r, '\n') == NormalizeLines(Split(conversation, '\n'))
    ensures |Split(r, '\n')| == |Split(conversation, '\n')|
  {
    var normalized := NormalizeLines(Split(conversation, '\n'));
    SplitJoin(normalized, '\n');
    Join(normalized, '\n')
  }

  lemma NormalizedConversationIdempotent(conversation: string)
    ensures NormalizedConversation(NormalizedConversation(conversation))
         == NormalizedConversation(conversation)
  {
    var once := NormalizeLines(Split(conversation, '\n'));
    forall i | 0 <= i < |once| ensures NormalizeLine(once[i]) == once[i] {
      NormalizeLineIdempotent(Split(conversation, '\n')[i]);
    }
    assert NormalizeLines(once) == once;
  }

  /** `normalize_conversation_tags`: the loop over the lines. */
  method NormalizeConversationTags(conversation: string) returns (normalized: string)
    ensures normalized == NormalizedConversation(conversation)
    ensures var lines := Split(conversation, '\n');
      && |Split(normalized, '\n')| == |lines|
      && forall i :: 0 <= i < |lines| ==> Split(normalized, '\n')[i] == NormalizeLine(lines[i])
  {
    var lines := Split(conversation, '\n');
    ghost var expected := NormalizeLines(lines);
    var normalizedLines: seq<string> := [];
    var i := 0;
    while i < |lines|
      invariant 0 <= i <= |lines|
      invariant normalizedLines == expected[..i]
    {
      normalizedLines := normalizedLines + [NormalizeLine(lines[i])];
      assert expected[..i + 1] == expected[..i] + [expected[i]];
      i := i + 1;
    }
    assert normalizedLines == expected;
    normalized := Join(normalizedLines, '\n');
  }
}
