/**
  The JIRA plugin (plugins/jira/__init__.py): a passive listener that spots
  issue keys such as `OPS-1234` in any message and answers with the issue's
  details.  The JIRA client is abstracted into a lookup function, and date
  parsing into an optional, already formatted, date.
*/
module Jira {
  import opened Wrappers
  import opened Text
  import Plugin

  const PluginType: Plugin.Kind := Plugin.Passive

  const Purpose: string := "*JIRA*: I listen for jira issue keys and display information about the given issue."

  // ---------------------------------------------------------------------
  // The issue-key pattern  ([A-Z]{1,7}-[\d]{2,6})\w+  (case-insensitive,
  // anchored at the start of the token)

  /** The character classes the pattern uses. */
  datatype CharClass = Letter | Digit | Word

  predicate In(c: char, k: CharClass) {
    match k
    case Letter => IsLetter(c)
    case Digit => IsDigit(c)
    case Word => IsWordChar(c)
  }

  /** The length of the run of characters of class `p` from `i` on. */
  function RunFrom(t: string, i: nat, p: CharClass): (n: nat)
    requires i <= |t|
    ensures i + n <= |t|
    decreases |t| - i
  {
    if i == |t| || !In(t[i], p) then 0 else 1 + RunFrom(t, i + 1, p)
  }

  /** The run is a maximal stretch of the class. */
  lemma {:induction false} RunIsMaximal(t: string, i: nat, p: CharClass)
    requires i <= |t|
    ensures forall j | i <= j < i + RunFrom(t, i, p) :: In(t[j], p)
    ensures i + RunFrom(t, i, p) == |t| || !In(t[i + RunFrom(t, i, p)], p)
    decreases |t| - i
  {
    if i < |t| && In(t[i], p) {
      RunIsMaximal(t, i + 1, p);
    }
  }

  /** `a` letters, a hyphen, `d` digits and `w` more word characters. */
  predicate KeyShapeWith(t: string, a: nat, d: nat, w: nat) {
    1 <= a <= 7 && 2 <= d <= 6 && 1 <= w && a + 1 + d + w <= |t|
    && (forall j | 0 <= j < a :: In(t[j], Letter))
    && t[a] == '-'
    && (forall j | a + 1 <= j < a + 1 + d :: In(t[j], Digit))
    && (forall j | a + 1 + d <= j < a + 1 + d + w :: In(t[j], Word))
  }

  predicate HasKey(t: string) {
    exists a: nat, d: nat, w: nat | a <= 7 && d <= 6 && w <= |t| :: KeyShapeWith(t, a, d, w)
  }

  /** `re.match(pattern, t, re.IGNORECASE).group()`, or `None` when it does
      not match. */
  function IssueKey(t: string): (k: Option<string>)
    ensures k.Some? ==> k.value <= t && |k.value| >= 5 && '-' in k.value
  {
    var a := RunFrom(t, 0, Letter);
    if 1 <= a <= 7 && a < |t| && t[a] == '-'
       && RunFrom(t, a + 1, Digit) >= 2 && RunFrom(t, a + 1, Word) >= 3
    then Some(t[..a + 1 + RunFrom(t, a + 1, Word)])
    else None
  }

  /** `key` is the whole match of a shape with these parts, which runs to
      the end of the word. */
  predicate WholeMatchWith(t: string, key: string, a: nat, d: nat, w: nat) {
    KeyShapeWith(t, a, d, w) && key == t[..a + 1 + d + w]
    && (a + 1 + d + w == |t| || !In(t[a + 1 + d + w], Word))
  }

  predicate WholeMatch(t: string, key: string) {
    exists a: nat, d: nat, w: nat | a <= 7 && d <= 6 && w <= |t| :: WholeMatchWith(t, key, a, d, w)
  }

  /** A token yields a key exactly when it starts with the pattern's shape. */
  lemma IssueKeyIffShape(t: string)
    ensures IssueKey(t).Some? <==> HasKey(t)
  {
    KeyRuns(t);
    if IssueKey(t).Some? {
      var a, d, w := KeyParts(t);
    }
  }

  /** The key is the whole match, up to the end of the word. */
  lemma IssueKeyIsWholeMatch(t: string)
    requires IssueKey(t).Some?
    ensures WholeMatch(t, IssueKey(t).value)
  {
    var a, d, w := KeyParts(t);
    assert WholeMatchWith(t, IssueKey(t).value, a, d, w);
  }

  /** The parts of the match `IssueKey` finds. */
  lemma KeyParts(t: string) returns (a: nat, d: nat, w: nat)
    requires IssueKey(t).Some?
    ensures a <= 7 && d <= 6 && w <= |t| && KeyShapeWith(t, a, d, w)
    ensures IssueKey(t).value == t[..a + 1 + d + w]
    ensures a + 1 + d + w == |t| || !In(t[a + 1 + d + w], Word)
  {
    a := RunFrom(t, 0, Letter);
    var r := RunFrom(t, a + 1, Word);
    var digits := RunFrom(t, a + 1, Digit);
    DigitsInWord(t, a + 1);
    d := if digits > 6 then 6 else digits;
    d := if d > r - 1 then r - 1 else d;
    w := r - d;
    ShapeFromRuns(t, a, d, w);
    KeyEnd(t, a, r);
    assert d + w == r;
  }

  /** A run is exactly `n` long when `n` characters qualify and the next does not. */
  lemma {:induction false} RunIs(t: string, i: nat, p: CharClass, n: nat)
    requires i + n <= |t| && forall j | i <= j < i + n :: In(t[j], p)
    requires i + n == |t| || !In(t[i + n], p)
    ensures RunFrom(t, i, p) == n
    decreases n
  {
    if n > 0 {
      RunIs(t, i + 1, p, n - 1);
    }
  }

  lemma {:induction false} RunAtLeast(t: string, i: nat, p: CharClass, n: nat)
    requires i + n <= |t| && forall j | i <= j < i + n :: In(t[j], p)
    ensures RunFrom(t, i, p) >= n
    decreases n
  {
    if n > 0 {
      RunAtLeast(t, i + 1, p, n - 1);
    }
  }

  /** A run of digits is part of the run of word characters. */
  lemma {:induction false} DigitsInWord(t: string, i: nat)
    requires i <= |t|
    ensures RunFrom(t, i, Digit) <= RunFrom(t, i, Word)
    decreases |t| - i
  {
    if i < |t| && In(t[i], Digit) {
      DigitsInWord(t, i + 1);
    }
  }

  /** What a match says about the runs `IssueKey` measures. */
  lemma KeyRuns(t: string)
    ensures HasKey(t) ==>
              var a := RunFrom(t, 0, Letter);
              1 <= a <= 7 && a < |t| && t[a] == '-'
              && RunFrom(t, a + 1, Digit) >= 2 && RunFrom(t, a + 1, Word) >= 3
  {
    if HasKey(t) {
      var a: nat, d: nat, w: nat :| a <= 7 && d <= 6 && w <= |t| && KeyShapeWith(t, a, d, w);
      RunIs(t, 0, Letter, a);
      RunAtLeast(t, a + 1, Digit, d);
      RunAtLeast(t, a + 1, Word, d + w);
    }
  }

  /** The key ends where the word does. */
  lemma KeyEnd(t: string, a: nat, r: nat)
    requires IssueKey(t).Some? && a == RunFrom(t, 0, Letter) && r == RunFrom(t, a + 1, Word)
    ensures a + 1 + r <= |t| && IssueKey(t).value == t[..a + 1 + r]
    ensures a + 1 + r == |t| || !In(t[a + 1 + r], Word)
  {
    RunIsMaximal(t, a + 1, Word);
  }

  /** A match read off the runs: `d` of the digits, and the rest of the word. */
  lemma ShapeFromRuns(t: string, a: nat, d: nat, w: nat)
    requires 1 <= a <= 7 && a < |t| && t[a] == '-' && a == RunFrom(t, 0, Letter)
    requires 2 <= d <= 6 && d <= RunFrom(t, a + 1, Digit)
    requires 1 <= w && d + w == RunFrom(t, a + 1, Word)
    ensures KeyShapeWith(t, a, d, w)
  {
    RunIsMaximal(t, 0, Letter);
    RunIsMaximal(t, a + 1, Digit);
    RunIsMaximal(t, a + 1, Word);
  }

  // ---------------------------------------------------------------------
  // The answer

  /** An issue's fields as the client returns them; a date is `None` when
      it cannot be parsed (the parser raises). */
  datatype Fields = Fields(
    summary: string, description: Option<string>, status: string,
    assignee: string, reporter: string,
    created: Option<string>, updated: Option<string>)

  /** `jc.issue(key)`: the issue, or a failure of the client or the lookup. */
  datatype Lookup = Found(fields: Fields) | LookupFailed

  /** Lines 50-56: a description of 253 characters or more is cut to its
      first 256 and marked with an ellipsis; a missing one reads `N/A`. */
  function Truncate(description: Option<string>): (text: string)
    ensures description.None? ==> text == "N/A"
    ensures description.Some? && |description.value| < 253 ==> text == description.value
    ensures description.Some? && |description.value| >= 253 ==>
              |text| == (if |description.value| < 256 then |description.value| else 256) + 3
              && text[..|text| - 3] <= description.value && text[|text| - 3..] == "..."
  {
    match description
    case None => "N/A"
    case Some(d) =>
      if |d| >= 253 then d[..if |d| < 256 then |d| else 256] + "..." else d
  }

  /** Lines 59-64: the header and the fields up to the reporter. */
  function Heading(url: string, key: string, f: Fields): string {
    "*JIRA Issue: *" + url + "/browse/" + key + "\r```"
    + "Summary:  " + f.summary + "\r"
    + "Description:\r" + Truncate(f.description) + "\r\r"
    + "Status:   " + f.status + "\r"
    + "Assignee: " + f.assignee + "\r"
    + "Reporter: " + f.reporter + "\r"
  }

  function CreatedLine(created: string): string {
    "Created:  " + created + "\r"
  }

  function UpdatedLine(updated: string): string {
    "Updated:  " + updated + "```"
  }

  /** The full report for an issue whose dates both parse. */
  function Report(url: string, key: string, f: Fields): string
    requires f.created.Some? && f.updated.Some?
  {
    Heading(url, key, f) + CreatedLine(f.created.value) + UpdatedLine(f.updated.value)
  }

  /** `matched` and `output` as the loop carries them. */
  datatype State = State(matched: int, output: Option<string>)

  /** One token of the loop: a token without a key changes nothing; a failed
      lookup clears `matched` and keeps the output; a found issue writes the
      output afresh, as far as the first date that does not parse. */
  function Step(s: State, token: string, url: string, lookup: string -> Lookup): (r: State)
    ensures !Keyed(token) ==> r == s
    ensures Keyed(token) && lookup(IssueKey(Lower(token)).value).LookupFailed? ==>
              r == s.(matched := 0)
    ensures Keyed(token) && lookup(IssueKey(Lower(token)).value).Found? ==> r.output.Some?
  {
    match IssueKey(Lower(token))
    case None => s
    case Some(key) =>
      match lookup(key)
      case LookupFailed => s.(matched := 0)
      case Found(f) =>
        if f.created.None? then State(0, Some(Heading(url, key, f)))
        else if f.updated.None? then State(0, Some(Heading(url, key, f) + CreatedLine(f.created.value)))
        else State(1, Some(Report(url, key, f)))
  }

  /** The state after the first tokens of the message. */
  function Scan(tokens: seq<string>, url: string, lookup: string -> Lookup): State {
    if tokens == [] then State(0, None)
    else Step(Scan(tokens[..|tokens| - 1], url, lookup), tokens[|tokens| - 1], url, lookup)
  }

  /** `run(message, user, email)`, with `JIRA_URL` as `url`. */
  method Run(message: seq<string>, user: string, email: Option<string>, url: string,
             lookup: string -> Lookup)
    returns (r: Plugin.Result)
    ensures r == Plugin.Result(Scan(message, url, lookup).matched, Scan(message, url, lookup).output, false, None)
  {
    r := Plugin.NoMatch;
    for i := 0 to |message|
      invariant r == Plugin.Result(Scan(message[..i], url, lookup).matched, Scan(message[..i], url, lookup).output, false, None)
    {
      assert message[..i + 1][..i] == message[..i];
      var m := Lower(message[i]);
      var match_ := IssueKey(m);
      if match_.Some? {
        var key := match_.value;
        var issue := lookup(key);
        if issue.LookupFailed? {
          r := r.(matched := 0);
        } else {
          var f := issue.fields;
          var output := Heading(url, key, f);
          r := r.(output := Some(output));
          if f.created.None? {
            r := r.(matched := 0);
          } else {
            output := output + CreatedLine(f.created.value);
            r := r.(output := Some(output));
            if f.updated.None? {
              r := r.(matched := 0);
            } else {
              output := output + UpdatedLine(f.updated.value);
              r := r.(output := Some(output), matched := 1);
            }
          }
        }
      }
    }
    assert message[..|message|] == message;
  }

  // ---------------------------------------------------------------------
  // Properties

  predicate Keyed(token: string) {
    IssueKey(Lower(token)).Some?
  }

  /** Whether the issue with this key is reported in full. */
  predicate Complete(lookup: string -> Lookup, key: string) {
    lookup(key).Found? && lookup(key).fields.created.Some? && lookup(key).fields.updated.Some?
  }

  /** Tokens after the last key leave the state alone. */
  lemma {:induction false} ScanUnkeyedTail(tokens: seq<string>, n: nat, url: string, lookup: string -> Lookup)
    requires n <= |tokens|
    requires forall j | n <= j < |tokens| :: !Keyed(tokens[j])
    ensures Scan(tokens, url, lookup) == Scan(tokens[..n], url, lookup)
    decreases |tokens| - n
  {
    if n < |tokens| {
      var init := tokens[..|tokens| - 1];
      assert init[..n] == tokens[..n];
      ScanUnkeyedTail(init, n, url, lookup);
    } else {
      assert tokens[..n] == tokens;
    }
  }

  /** A message without any key is not matched and has no output. */
  lemma NoKeyNoMatch(tokens: seq<string>, url: string, lookup: string -> Lookup)
    requires forall j | 0 <= j < |tokens| :: !Keyed(tokens[j])
    ensures Scan(tokens, url, lookup) == State(0, None)
  {
    ScanUnkeyedTail(tokens, 0, url, lookup);
  }

  /** The plugin reports a match exactly when the last token carrying a key
      names an issue that is found and whose dates both parse, and then the
      output is that issue's full report. */
  lemma LastKeyDecides(tokens: seq<string>, k: nat, url: string, lookup: string -> Lookup)
    requires k < |tokens| && Keyed(tokens[k])
    requires forall j | k < j < |tokens| :: !Keyed(tokens[j])
    ensures var key := IssueKey(Lower(tokens[k])).value;
            (Scan(tokens, url, lookup).matched == 1 <==> Complete(lookup, key))
            && (Complete(lookup, key) ==>
                  Scan(tokens, url, lookup).output == Some(Report(url, key, lookup(key).fields)))
  {
    ScanUnkeyedTail(tokens, k + 1, url, lookup);
    var prefix := tokens[..k + 1];
    assert prefix[..k] == tokens[..k];
    assert prefix[k] == tokens[k];
    StepOnKey(Scan(tokens[..k], url, lookup), tokens[k], url, lookup);
  }

  lemma StepOnKey(s: State, token: string, url: string, lookup: string -> Lookup)
    requires Keyed(token)
    ensures var key := IssueKey(Lower(token)).value;
            (Step(s, token, url, lookup).matched == 1 <==> Complete(lookup, key))
            && (Complete(lookup, key) ==>
                  Step(s, token, url, lookup).output == Some(Report(url, key, lookup(key).fields)))
  {
  }

  /** Every output starts with the heading of the issue it describes. */
  lemma OutputNamesIssue(s: State, token: string, url: string, lookup: string -> Lookup)
    requires IssueKey(Lower(token)).Some?
    requires lookup(IssueKey(Lower(token)).value).Found?
    ensures var key := IssueKey(Lower(token)).value;
            var out := Step(s, token, url, lookup).output;
            out.Some? && Heading(url, key, lookup(key).fields) <= out.value
  {
  }

  /** A truncated description is at most 259 characters long; a shorter one
      is kept whole. */
  lemma TruncateBound(description: string)
    ensures |Truncate(Some(description))| <= 259
    ensures |Truncate(Some(description))| >= (if |description| < 256 then |description| else 256)
  {
  }

  /** `OPS-123` and `ops-12x` carry keys; the key is the whole token. */
  lemma KeyExample(t: string)
    requires |t| == 7 && IsLetter(t[0]) && IsLetter(t[1]) && IsLetter(t[2]) && t[3] == '-'
    requires IsDigit(t[4]) && IsDigit(t[5]) && IsWordChar(t[6])
    ensures IssueKey(t) == Some(t)
  {
    RunIs(t, 0, Letter, 3);
    RunIs(t, 4, Word, 3);
    RunAtLeast(t, 4, Digit, 2);
    assert t[..|t|] == t;
  }

  /** A key needs a word character after its digits: `ops-12` alone carries none. */
  lemma TwoDigitsAloneRefused(t: string)
    requires |t| == 6 && IsLetter(t[0]) && IsLetter(t[1]) && IsLetter(t[2]) && t[3] == '-'
    requires IsDigit(t[4]) && IsDigit(t[5])
    ensures IssueKey(t).None?
  {
    RunIs(t, 0, Letter, 3);
    RunIs(t, 4, Word, 2);
  }
}
