/**
  The PagerDuty plugin (plugins/pagerduty/__init__.py): a scored matcher over
  three command patterns, and the three answers it gives.  The HTTP calls and
  the time-zone formatting are abstracted into a `Service` value giving the
  outcome of each remote exchange.
*/
module PagerDuty {
  import opened Wrappers
  import opened Text
  import Plugin
  import Tokenizer

  const PluginType: Plugin.Kind := Plugin.Active

  const Purpose: string := "*PagerDuty*: Ask `Who is on call?` to see who is currently on-call, `When am I on call next?` to see when your next shift starts, or tell jarvis to `give me the pager` to cover the pager for the current person tht is on-call."

  /** Who is on call / when am I on call next / give me the pager. */
  const CommandPatterns: seq<seq<string>> :=
    [["who", "whos", "on", "call"], ["when", "on", "i", "call", "next"], ["give", "pager", "me"]]

  const ListingHeader: string := "The following people are currently on-call:\r"
  const NextShiftHeader: string := "Your next on-call shift starts: "

  /** One entry of the `oncalls` list. */
  datatype OnCall = OnCall(user: string, team: string, start: Option<string>)

  /** The outcome of each remote exchange; `None` when any request, lookup
      or parse on that path raised. */
  datatype Service = Service(
    onCalls: Option<seq<OnCall>>,   // GET /oncalls
    nextShift: Option<string>,      // user lookup, GET /oncalls for the user, formatted start
    override: Option<Override>)     // user, policy and schedule lookups, POST override

  /** The override window, formatted in local time. */
  datatype Override = Override(from: string, to: string)

  // ---------------------------------------------------------------------
  // Scoring

  /** `m.lower().replace("'", '').replace('-', '')`: no apostrophe or hyphen
      is left. */
  function Normalize(token: string): (n: string)
    ensures '\'' !in n && '-' !in n
  {
    RemoveCharAbsent(Lower(token), '\'', '\'');
    RemoveCharAbsent(RemoveChar(Lower(token), '\''), '-', '\'');
    RemoveChar(RemoveChar(Lower(token), '\''), '-')
  }

  /** Normalizing adds no character: each one comes from the lowercased token. */
  lemma NormalizeChars(token: string)
    ensures forall ch <- Normalize(token) :: ch in Lower(token)
  {
    RemoveCharChars(Lower(token), '\'');
    RemoveCharChars(RemoveChar(Lower(token), '\''), '-');
  }

  /** How many tokens normalize to the pattern word `c`. */
  function Occurrences(c: string, message: seq<string>): nat {
    if message == [] then 0
    else Occurrences(c, message[..|message| - 1]) + (if c == Normalize(message[|message| - 1]) then 1 else 0)
  }

  /** The number of (pattern word, token) pairs that agree. */
  function Score(pattern: seq<string>, message: seq<string>): nat {
    if pattern == [] then 0
    else Score(pattern[..|pattern| - 1], message) + Occurrences(pattern[|pattern| - 1], message)
  }

  /** `current_match > len(pattern)/2`, in whole numbers. */
  predicate Matches(pattern: seq<string>, message: seq<string>) {
    2 * Score(pattern, message) > |pattern|
  }

  predicate CommandMatched(message: seq<string>) {
    exists i | 0 <= i < |CommandPatterns| :: Matches(CommandPatterns[i], message)
  }

  /** The branch taken: the highest-numbered pattern among the first `n`
      that matches, or 0 when none does. */
  function HighestMatch(message: seq<string>, n: nat): (b: nat)
    requires n <= |CommandPatterns|
    ensures b < |CommandPatterns|
    ensures (exists i | 0 <= i < n :: Matches(CommandPatterns[i], message))
            ==> b < n && Matches(CommandPatterns[b], message)
                && forall j | b < j < n :: !Matches(CommandPatterns[j], message)
    ensures (forall i | 0 <= i < n :: !Matches(CommandPatterns[i], message)) ==> b == 0
  {
    if n == 0 then 0
    else if Matches(CommandPatterns[n - 1], message) then n - 1
    else HighestMatch(message, n - 1)
  }

  function Branch(message: seq<string>): nat {
    HighestMatch(message, |CommandPatterns|)
  }

  /** Lines 36-40: the nested loops that count agreeing pairs. */
  method PatternScore(pattern: seq<string>, message: seq<string>) returns (score: nat)
    ensures score == Score(pattern, message)
  {
    score := 0;
    for i := 0 to |pattern|
      invariant score == Score(pattern[..i], message)
    {
      var c := pattern[i];
      assert pattern[..i + 1][..i] == pattern[..i];
      ghost var before := score;
      for j := 0 to |message|
        invariant score == before + Occurrences(c, message[..j])
      {
        assert message[..j + 1][..j] == message[..j];
        if c == Normalize(message[j]) {
          score := score + 1;
        }
      }
      assert message[..|message|] == message;
    }
    assert pattern[..|pattern|] == pattern;
  }

  /** Lines 29-45: which pattern is chosen, and whether any matched. */
  method SelectCommand(message: seq<string>) returns (matched: bool, branch: nat)
    ensures matched == CommandMatched(message)
    ensures branch == Branch(message)
  {
    branch := 0;
    matched := false;
    for i := 0 to |CommandPatterns|
      invariant matched == exists k | 0 <= k < i :: Matches(CommandPatterns[k], message)
      invariant branch == HighestMatch(message, i)
    {
      var needed := |CommandPatterns[i]| / 2;
      var current := PatternScore(CommandPatterns[i], message);
      if current > needed {
        matched := true;
        branch := i;
      }
    }
  }

  // ---------------------------------------------------------------------
  // The answers

  /** The pieces of a listing line, `*user* (team)` and a carriage return. */
  const Star: string := "*"
  const TeamOpen: string := "* ("
  const TeamClose: string := ")\r"

  function Line(record: OnCall): string {
    Star + record.user + TeamOpen + record.team + TeamClose
  }

  /** A record's line when it is scheduled (non-null `start`), else nothing. */
  function Entry(record: OnCall): string {
    if record.start != None then Line(record) else []
  }

  /** The lines for the scheduled records, in order. */
  function Listing(records: seq<OnCall>): string {
    if records == [] then [] else Listing(records[..|records| - 1]) + Entry(records[|records| - 1])
  }

  function OverrideMessage(o: Override): string {
    "Scheduling you for an override: \nFrom: " + o.from + "\nTo: " + o.to
  }

  /** Lines 62-68: one line per scheduled record. */
  method ListOnCall(data: seq<OnCall>) returns (lines: string)
    ensures lines == Listing(data)
  {
    lines := [];
    for k := 0 to |data|
      invariant lines == Listing(data[..k])
    {
      assert data[..k + 1][..k] == data[..k];
      if data[k].start != None {
        lines := lines + Line(data[k]);
      }
    }
    assert data[..|data|] == data;
  }

  /** The output of the branch taken; the header alone when the request failed. */
  function Answer(branch: nat, service: Service): string {
    if branch == 0 then
      ListingHeader + (match service.onCalls case Some(records) => Listing(records) case None => [])
    else if branch == 1 then
      NextShiftHeader + (match service.nextShift case Some(start) => start case None => [])
    else
      match service.override case Some(o) => OverrideMessage(o) case None => []
  }

  /** `run(message, name, email)` */
  method Run(message: seq<string>, name: string, email: Option<string>, service: Service)
    returns (r: Plugin.Result)
    ensures r.matched == (if CommandMatched(message) then 1 else 0)
    ensures r.output == Some(Answer(Branch(message), service))
    ensures !r.direct && r.file == None
  {
    var matched, branch := SelectCommand(message);
    var output: string := [];
    if branch == 0 {
      output := ListingHeader;
      if service.onCalls.Some? {
        var lines := ListOnCall(service.onCalls.value);
        output := output + lines;
      } else {
        assert output + [] == output;
      }
    } else if branch == 1 {
      output := NextShiftHeader;
      if service.nextShift.Some? {
        output := output + service.nextShift.value;
      } else {
        assert output + [] == output;
      }
    } else if service.override.Some? {
      output := OverrideMessage(service.override.value);
    }
    r := Plugin.Result(if matched then 1 else 0, Some(output), false, None);
  }

  // ---------------------------------------------------------------------
  // Properties

  /** The threshold `current_match > len/2` (whole or true division alike)
      is `2 * score > len`. */
  lemma ThresholdIsHalf(score: nat, len: nat)
    ensures score > len / 2 <==> 2 * score > len
  {
  }

  lemma {:induction false} OccurrencesAppend(c: string, a: seq<string>, b: seq<string>)
    ensures Occurrences(c, a + b) == Occurrences(c, a) + Occurrences(c, b)
    decreases |b|
  {
    if b == [] {
      assert a + b == a;
    } else {
      assert (a + b)[..|a + b| - 1] == a + b[..|b| - 1];
      OccurrencesAppend(c, a, b[..|b| - 1]);
    }
  }

  /** Scores add up over the tokens: every occurrence counts, wherever it is
      and however often it is repeated. */
  lemma {:induction false} ScoreAppend(pattern: seq<string>, a: seq<string>, b: seq<string>)
    ensures Score(pattern, a + b) == Score(pattern, a) + Score(pattern, b)
    decreases |pattern|
  {
    if pattern != [] {
      ScoreAppend(pattern[..|pattern| - 1], a, b);
      OccurrencesAppend(pattern[|pattern| - 1], a, b);
    }
  }

  /** The records with a non-null `start`, in order. */
  function Scheduled(records: seq<OnCall>): seq<OnCall> {
    if records == [] then []
    else
      var last := records[|records| - 1];
      Scheduled(records[..|records| - 1]) + (if last.start != None then [last] else [])
  }

  /** One line per record. */
  function Lines(records: seq<OnCall>): string {
    if records == [] then [] else Lines(records[..|records| - 1]) + Line(records[|records| - 1])
  }

  /** The listing is the lines of the scheduled records: records without a
      start are skipped and the others keep their order. */
  lemma {:induction false} ListingIsScheduledLines(records: seq<OnCall>)
    ensures Listing(records) == Lines(Scheduled(records))
    decreases |records|
  {
    if records != [] {
      var init, last := records[..|records| - 1], records[|records| - 1];
      var before := Scheduled(init);
      ListingIsScheduledLines(init);
      if last.start != None {
        assert (before + [last])[..|before|] == before;
      } else {
        assert before + [] == before;
      }
    }
  }

  /** The on-call answer is the header and one line per scheduled record,
      in record order. */
  lemma ListingAnswer(records: seq<OnCall>, service: Service)
    requires service.onCalls == Some(records)
    ensures Answer(0, service) == ListingHeader + Lines(Scheduled(records))
  {
    ListingIsScheduledLines(records);
  }

  /** When no pattern matches, the on-call listing is still what is built
      (with `matched` left at 0). */
  lemma UnmatchedLists(message: seq<string>)
    requires !CommandMatched(message)
    ensures Branch(message) == 0
  {
  }

  /** Normalizing deletes every apostrophe and hyphen: `who's` counts as
      `whos`, and `on-call` becomes the single word `oncall`. */
  lemma NormalizeSplices(a: string, b: string)
    ensures Normalize(a + "'" + b) == Normalize(a) + Normalize(b)
    ensures Normalize(a + "-" + b) == Normalize(a) + Normalize(b)
  {
    NormalizeSplice(a, "'", b);
    NormalizeSplice(a, "-", b);
  }

  lemma NormalizeSplice(a: string, sep: string, b: string)
    requires sep == "'" || sep == "-"
    ensures Normalize(a + sep + b) == Normalize(a) + Normalize(b)
  {
    var la, lb := Lower(a), Lower(b);
    assert Lower(a + sep + b) == la + sep + lb by {
      LowerAppend(a + sep, b);
      LowerAppend(a, sep);
      assert Lower(sep) == sep;
    }
    var ra, rs, rb := RemoveChar(la, '\''), RemoveChar(sep, '\''), RemoveChar(lb, '\'');
    assert RemoveChar(la + sep + lb, '\'') == ra + rs + rb by {
      ReplaceCharAppend(la + sep, lb, '\'', []);
      ReplaceCharAppend(la, sep, '\'', []);
    }
    assert RemoveChar(rs, '-') == [] by {
      assert sep == [sep[0]];
      RemoveCharSingle(sep[0], '\'');
      if sep == "-" {
        RemoveCharSingle('-', '-');
      }
    }
    assert RemoveChar(ra + rs + rb, '-') == RemoveChar(ra, '-') + RemoveChar(rb, '-') by {
      ReplaceCharAppend(ra + rs, rb, '-', []);
      ReplaceCharAppend(ra, rs, '-', []);
    }
  }

  lemma RemoveCharSingle(x: char, c: char)
    ensures RemoveChar([x], c) == if x == c then [] else [x]
  {
    assert [x][0] == x && [x][1..] == [];
    assert ReplaceChar([x][1..], c, []) == [];
  }

  /** A token that normalizes to `c` is counted. */
  lemma {:induction false} OccurrencesPositive(c: string, message: seq<string>, k: nat)
    requires k < |message| && Normalize(message[k]) == c
    ensures Occurrences(c, message) >= 1
    decreases |message|
  {
    if k < |message| - 1 {
      OccurrencesPositive(c, message[..|message| - 1], k);
    }
  }

  /** Some token normalizes to `c`. */
  predicate Present(c: string, message: seq<string>) {
    exists k | 0 <= k < |message| :: Normalize(message[k]) == c
  }

  /** A message that has every word of a pattern, in any order, case or
      hyphenation, matches that pattern. */
  lemma {:induction false} AllWordsMatch(pattern: seq<string>, message: seq<string>)
    requires pattern != []
    requires forall c <- pattern :: Present(c, message)
    ensures Matches(pattern, message)
  {
    AllWordsScore(pattern, message);
  }

  lemma {:induction false} AllWordsScore(pattern: seq<string>, message: seq<string>)
    requires forall c <- pattern :: Present(c, message)
    ensures Score(pattern, message) >= |pattern|
    decreases |pattern|
  {
    if pattern != [] {
      var c := pattern[|pattern| - 1];
      assert c in pattern;
      assert Present(c, message);
      var k :| 0 <= k < |message| && Normalize(message[k]) == c;
      OccurrencesPositive(c, message, k);
      assert forall d <- pattern[..|pattern| - 1] :: d in pattern;
      AllWordsScore(pattern[..|pattern| - 1], message);
    }
  }

  // ---------------------------------------------------------------------
  // Worked examples

  /** A word of lower-case ASCII letters. */
  predicate LowerWord(w: string) {
    forall i | 0 <= i < |w| :: 'a' <= w[i] <= 'z'
  }

  lemma {:induction false} LowerFixed(w: string)
    requires LowerWord(w)
    ensures Lower(w) == w
    decreases |w|
  {
    if w != [] {
      assert LowerWord(w[1..]) by { forall i | 0 <= i < |w[1..]| ensures 'a' <= w[1..][i] <= 'z' { assert w[1..][i] == w[i + 1]; } }
      LowerFixed(w[1..]);
      assert w == [w[0]] + w[1..];
    }
  }

  /** Such a word is already normalized. */
  lemma NormalizeLowerWord(w: string)
    requires LowerWord(w)
    ensures Normalize(w) == w
  {
    LowerFixed(w);
    assert '\'' !in w && '-' !in w;
    ReplaceCharAbsent(w, '\'', []);
    ReplaceCharAbsent(w, '-', []);
  }

  /** A capitalized word normalizes to its lower-case form. */
  lemma NormalizeCapitalized(c: char, w: string)
    requires 'A' <= c <= 'Z' && LowerWord(w)
    ensures Normalize([c] + w) == [LowerChar(c)] + w
  {
    LowerFixed(w);
    assert ([c] + w)[1..] == w;
    assert Lower([c] + w) == [LowerChar(c)] + w;
    assert LowerWord([LowerChar(c)] + w) by {
      forall i | 0 <= i < |w| + 1 ensures 'a' <= ([LowerChar(c)] + w)[i] <= 'z' {
        if i > 0 { assert ([LowerChar(c)] + w)[i] == w[i - 1]; }
      }
    }
    NormalizeLowerWord([LowerChar(c)] + w);
  }

  /** A word no token normalizes to is not counted. */
  lemma {:induction false} OccurrencesAbsent(c: string, message: seq<string>)
    requires !Present(c, message)
    ensures Occurrences(c, message) == 0
    decreases |message|
  {
    if message != [] {
      OccurrencesAbsent(c, message[..|message| - 1]);
    }
  }

  /** A word exactly one token normalizes to counts once. */
  lemma {:induction false} OccurrencesOnce(c: string, message: seq<string>, k: nat)
    requires k < |message| && Normalize(message[k]) == c
    requires forall j | 0 <= j < |message| && j != k :: Normalize(message[j]) != c
    ensures Occurrences(c, message) == 1
    decreases |message|
  {
    var init := message[..|message| - 1];
    if k == |message| - 1 {
      OccurrencesAbsent(c, init);
    } else {
      OccurrencesOnce(c, init, k);
    }
  }

  /** A pattern's score is the sum of its words' counts. */
  lemma ScoreSnoc(pattern: seq<string>, c: string, message: seq<string>)
    ensures Score(pattern + [c], message) == Score(pattern, message) + Occurrences(c, message)
  {
    assert (pattern + [c])[..|pattern|] == pattern;
  }

  /** The tokens normalize, in order, to `who is on call`. */
  predicate AsksWhoIsOnCall(m: seq<string>) {
    |m| == 4 && Normalize(m[0]) == "who" && Normalize(m[1]) == "is"
    && Normalize(m[2]) == "on" && Normalize(m[3]) == "call"
  }

  lemma WhoIsOnCallFirst(m: seq<string>)
    requires AsksWhoIsOnCall(m)
    ensures Score(CommandPatterns[0], m) == 3
  {
    OccurrencesOnce("who", m, 0);
    OccurrencesAbsent("whos", m);
    OccurrencesOnce("on", m, 2);
    OccurrencesOnce("call", m, 3);
    ScoreSnoc([], "who", m);
    ScoreSnoc(["who"], "whos", m);
    ScoreSnoc(["who", "whos"], "on", m);
    ScoreSnoc(["who", "whos", "on"], "call", m);
    assert [] + ["who"] == ["who"] && ["who"] + ["whos"] == ["who", "whos"];
    assert ["who", "whos"] + ["on"] == ["who", "whos", "on"];
    assert ["who", "whos", "on"] + ["call"] == CommandPatterns[0];
  }

  lemma WhoIsOnCallSecond(m: seq<string>)
    requires AsksWhoIsOnCall(m)
    ensures Score(CommandPatterns[1], m) == 2
  {
    OccurrencesAbsent("when", m);
    OccurrencesOnce("on", m, 2);
    OccurrencesAbsent("i", m);
    OccurrencesOnce("call", m, 3);
    OccurrencesAbsent("next", m);
    ScoreSnoc([], "when", m);
    ScoreSnoc(["when"], "on", m);
    ScoreSnoc(["when", "on"], "i", m);
    ScoreSnoc(["when", "on", "i"], "call", m);
    ScoreSnoc(["when", "on", "i", "call"], "next", m);
    assert [] + ["when"] == ["when"] && ["when"] + ["on"] == ["when", "on"];
    assert ["when", "on"] + ["i"] == ["when", "on", "i"];
    assert ["when", "on", "i"] + ["call"] == ["when", "on", "i", "call"];
    assert ["when", "on", "i", "call"] + ["next"] == CommandPatterns[1];
  }

  /** No word of the pager request: a score of 0. */
  lemma PagerWordsAbsent(m: seq<string>)
    requires !Present("give", m) && !Present("pager", m) && !Present("me", m)
    ensures Score(CommandPatterns[2], m) == 0
  {
    OccurrencesAbsent("give", m);
    OccurrencesAbsent("pager", m);
    OccurrencesAbsent("me", m);
    ScoreSnoc([], "give", m);
    ScoreSnoc(["give"], "pager", m);
    ScoreSnoc(["give", "pager"], "me", m);
    assert [] + ["give"] == ["give"] && ["give"] + ["pager"] == ["give", "pager"];
    assert ["give", "pager"] + ["me"] == CommandPatterns[2];
  }

  /** `Who is on call` asks for the on-call listing: pattern 0 matches and
      the later ones do not. */
  lemma WhoIsOnCallBranch(m: seq<string>)
    requires AsksWhoIsOnCall(m)
    ensures CommandMatched(m) && Branch(m) == 0
  {
    WhoIsOnCallFirst(m);
    WhoIsOnCallSecond(m);
    PagerWordsAbsent(m);
    assert Matches(CommandPatterns[0], m);
  }

  /** The tokens normalize, in order, to `when am i on call next`. */
  predicate AsksNextShift(m: seq<string>) {
    |m| == 6 && Normalize(m[0]) == "when" && Normalize(m[1]) == "am" && Normalize(m[2]) == "i"
    && Normalize(m[3]) == "on" && Normalize(m[4]) == "call" && Normalize(m[5]) == "next"
  }

  /** `When am I on call next` asks for the next shift: pattern 1 matches
      and pattern 2 does not. */
  lemma NextShiftBranch(m: seq<string>)
    requires AsksNextShift(m)
    ensures CommandMatched(m) && Branch(m) == 1
  {
    NextShiftSecond(m);
    PagerWordsAbsent(m);
    assert Matches(CommandPatterns[1], m);
  }

  lemma NextShiftSecond(m: seq<string>)
    requires AsksNextShift(m)
    ensures Score(CommandPatterns[1], m) == 5
  {
    NextShiftCounts(m);
    ScoreSnoc([], "when", m);
    ScoreSnoc(["when"], "on", m);
    ScoreSnoc(["when", "on"], "i", m);
    ScoreSnoc(["when", "on", "i"], "call", m);
    ScoreSnoc(["when", "on", "i", "call"], "next", m);
    assert [] + ["when"] == ["when"] && ["when"] + ["on"] == ["when", "on"];
    assert ["when", "on"] + ["i"] == ["when", "on", "i"];
    assert ["when", "on", "i"] + ["call"] == ["when", "on", "i", "call"];
    assert ["when", "on", "i", "call"] + ["next"] == CommandPatterns[1];
  }

  lemma NextShiftCounts(m: seq<string>)
    requires AsksNextShift(m)
    ensures Occurrences("when", m) == 1 && Occurrences("on", m) == 1 && Occurrences("i", m) == 1
    ensures Occurrences("call", m) == 1 && Occurrences("next", m) == 1
  {
    NextShiftFrontCounts(m);
    NextShiftBackCounts(m);
  }

  lemma NextShiftFrontCounts(m: seq<string>)
    requires AsksNextShift(m)
    ensures Occurrences("when", m) == 1 && Occurrences("i", m) == 1
  {
    OccurrencesOnce("when", m, 0);
    OccurrencesOnce("i", m, 2);
  }

  lemma NextShiftBackCounts(m: seq<string>)
    requires AsksNextShift(m)
    ensures Occurrences("on", m) == 1 && Occurrences("call", m) == 1 && Occurrences("next", m) == 1
  {
    OccurrencesOnce("on", m, 3);
    OccurrencesOnce("call", m, 4);
    OccurrencesOnce("next", m, 5);
  }

  /** The tokens normalize, in order, to `give me the pager`. */
  predicate AsksForPager(m: seq<string>) {
    |m| == 4 && Normalize(m[0]) == "give" && Normalize(m[1]) == "me"
    && Normalize(m[2]) == "the" && Normalize(m[3]) == "pager"
  }

  /** `give me the pager` asks for an override: pattern 2 matches. */
  lemma PagerBranch(m: seq<string>)
    requires AsksForPager(m)
    ensures CommandMatched(m) && Branch(m) == 2
  {
    var p2 := CommandPatterns[2];
    assert Present("give", m) && Present("pager", m) && Present("me", m);
    assert forall c <- p2 :: Present(c, m);
    AllWordsMatch(p2, m);
  }

  /** Every token counts, however often it is repeated. */
  lemma {:induction false} OccurrencesEvery(c: string, message: seq<string>)
    requires forall k | 0 <= k < |message| :: Normalize(message[k]) == c
    ensures Occurrences(c, message) == |message|
    decreases |message|
  {
    if message != [] {
      OccurrencesEvery(c, message[..|message| - 1]);
    }
  }

  /** `on on on` matches pattern 0: three agreeing pairs out of four words. */
  lemma RepeatedOn(m: seq<string>)
    requires |m| == 3 && forall k | 0 <= k < 3 :: Normalize(m[k]) == "on"
    ensures Matches(CommandPatterns[0], m)
  {
    OccurrencesEvery("on", m);
    assert Present("on", m);
    OccurrencesAbsent("who", m);
    OccurrencesAbsent("whos", m);
    OccurrencesAbsent("call", m);
    ScoreSnoc([], "who", m);
    ScoreSnoc(["who"], "whos", m);
    ScoreSnoc(["who", "whos"], "on", m);
    ScoreSnoc(["who", "whos", "on"], "call", m);
    assert [] + ["who"] == ["who"] && ["who"] + ["whos"] == ["who", "whos"];
    assert ["who", "whos"] + ["on"] == ["who", "whos", "on"];
    assert ["who", "whos", "on"] + ["call"] == CommandPatterns[0];
  }

  /** The tokens of `Who is on call?` (the tokenizer removes the `?`). */
  lemma WhoIsOnCallTokens(m: seq<string>)
    requires |m| == 4 && m[0] == "Who" && m[1] == "is" && m[2] == "on" && m[3] == "call"
    ensures AsksWhoIsOnCall(m)
  {
    NormalizeCapitalized(m[0][0], m[0][1..]);
    assert m[0] == [m[0][0]] + m[0][1..];
    NormalizeLowerWord(m[1]);
    NormalizeLowerWord(m[2]);
    NormalizeLowerWord(m[3]);
  }

  /** The tokens of `When am I on call next?`. */
  lemma NextShiftTokens(m: seq<string>)
    requires |m| == 6 && m[0] == "When" && m[1] == "am" && m[2] == "I"
    requires m[3] == "on" && m[4] == "call" && m[5] == "next"
    ensures AsksNextShift(m)
  {
    NormalizeCapitalized(m[0][0], m[0][1..]);
    assert m[0] == [m[0][0]] + m[0][1..];
    NormalizeCapitalized(m[2][0], m[2][1..]);
    assert m[2] == [m[2][0]] + m[2][1..];
    NormalizeLowerWord(m[1]);
    NormalizeLowerWord(m[3]);
    NormalizeLowerWord(m[4]);
    NormalizeLowerWord(m[5]);
  }

  /** The tokens of `give me the pager`. */
  lemma PagerTokens(m: seq<string>)
    requires |m| == 4 && m[0] == "give" && m[1] == "me" && m[2] == "the" && m[3] == "pager"
    ensures AsksForPager(m)
  {
    NormalizeLowerWord(m[0]);
    NormalizeLowerWord(m[1]);
    NormalizeLowerWord(m[2]);
    NormalizeLowerWord(m[3]);
  }

  /** `Who's` is scored as `whos`. */
  lemma ApostropheDropped(w: string)
    requires w == "Who's"
    ensures Normalize(w) == "whos"
  {
    var a, b := w[..3], w[4..];
    assert w == a + "'" + b;
    NormalizeSplices(a, b);
    assert Normalize(a) == "who" by {
      NormalizeCapitalized(a[0], a[1..]);
      assert a == [a[0]] + a[1..];
    }
    assert Normalize(b) == "s" by {
      NormalizeLowerWord(b);
    }
  }

  /** `on-call` is scored as the single word `oncall`, which is neither
      `on` nor `call`. */
  lemma HyphenJoins(w: string)
    requires w == "on-call"
    ensures Normalize(w) == "oncall" && Normalize(w) != "on" && Normalize(w) != "call"
  {
    var a, b := w[..2], w[3..];
    assert w == a + "-" + b;
    NormalizeSplices(a, b);
    assert Normalize(a) == "on" by {
      NormalizeLowerWord(a);
    }
    assert Normalize(b) == "call" by {
      NormalizeLowerWord(b);
    }
  }

  /** Typing `Who is on call?` asks who is on call. */
  lemma WhoIsOnCallAsked(text: string)
    requires text == "Who is on call?"
    ensures AsksWhoIsOnCall(Tokenizer.TokensOf(text))
    ensures CommandMatched(Tokenizer.TokensOf(text)) && Branch(Tokenizer.TokensOf(text)) == 0
  {
    var ws := ["Who", "is", "on", "call"];
    Tokenizer.LetterWord(ws[0]);
    Tokenizer.LetterWord(ws[1]);
    Tokenizer.LetterWord(ws[2]);
    Tokenizer.LetterWord(ws[3]);
    assert text == Join(ws) + "?";
    Tokenizer.SentenceOfPlainWords(ws, "?");
    WhoIsOnCallTokens(ws);
    WhoIsOnCallBranch(ws);
  }

  /** Typing `When am I on call next?` asks for the next shift. */
  lemma NextShiftAsked(text: string)
    requires text == "When am I on call next?"
    ensures AsksNextShift(Tokenizer.TokensOf(text))
    ensures CommandMatched(Tokenizer.TokensOf(text)) && Branch(Tokenizer.TokensOf(text)) == 1
  {
    var ws := NextShiftLayout(text);
    Tokenizer.SentenceOfPlainWords(ws, "?");
    NextShiftTokens(ws);
    NextShiftBranch(ws);
  }

  /** `When am I on call next?` is six plain words and a `?`. */
  lemma NextShiftLayout(text: string) returns (ws: seq<string>)
    requires text == "When am I on call next?"
    ensures Tokenizer.Plain(ws) && text == Join(ws) + "?"
    ensures |ws| == 6 && ws[0] == "When" && ws[1] == "am" && ws[2] == "I"
    ensures ws[3] == "on" && ws[4] == "call" && ws[5] == "next"
  {
    var front, back := ["When", "am", "I"], ["on", "call", "next"];
    ws := front + back;
    assert Tokenizer.Plain(front) && Tokenizer.Plain(back) by {
      PlainThree(front);
      PlainThree(back);
    }
    assert Tokenizer.Plain(ws) by {
      assert forall y <- ws :: y in front || y in back;
    }
    NextShiftJoin(front, back);
  }

  lemma NextShiftJoin(front: seq<string>, back: seq<string>)
    requires front == ["When", "am", "I"] && back == ["on", "call", "next"]
    ensures Join(front + back) + "?" == "When am I on call next?"
  {
    assert Join(["When", "am", "I"]) == "When am I";
    assert Join(["on", "call", "next"]) == "on call next";
    JoinAppend(front, back);
  }

  /** Three words of ASCII letters are plain words. */
  lemma PlainThree(ws: seq<string>)
    requires |ws| == 3
    requires forall k | 0 <= k < 3 :: ws[k] != [] && forall i | 0 <= i < |ws[k]| :: IsLetter(ws[k][i])
    ensures Tokenizer.Plain(ws)
  {
    Tokenizer.LetterWord(ws[0]);
    Tokenizer.LetterWord(ws[1]);
    Tokenizer.LetterWord(ws[2]);
  }

  /** Typing `give me the pager` asks for the pager. */
  lemma PagerAsked(text: string)
    requires text == "give me the pager"
    ensures AsksForPager(Tokenizer.TokensOf(text))
    ensures CommandMatched(Tokenizer.TokensOf(text)) && Branch(Tokenizer.TokensOf(text)) == 2
  {
    var ws := ["give", "me", "the", "pager"];
    Tokenizer.LetterWord(ws[0]);
    Tokenizer.LetterWord(ws[1]);
    Tokenizer.LetterWord(ws[2]);
    Tokenizer.LetterWord(ws[3]);
    assert text == Join(ws) + [];
    Tokenizer.SentenceOfPlainWords(ws, []);
    PagerTokens(ws);
    PagerBranch(ws);
  }
}
