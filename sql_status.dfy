/**
  The server-status plugin (plugins/sql_status/__init__.py): the word
  `status` plus a token that looks like a server name triggers a health query
  against that server.  The server pattern (the `SQL_REGEX` setting or the
  built-in default) is a predicate parameter, and the database exchange is
  abstracted into its outcome.
*/
module SqlStatus {
  import opened Wrappers
  import opened Text
  import Plugin

  const PluginType: Plugin.Kind := Plugin.Active

  const Purpose: string := "*Server Status*: Ask `Whats the status of server-102?` to get general SQL health information. You must specify the server using the standard CA format, or an IP address. Currently this plugin only gets data from SQL instances."

  const CommandPattern: seq<string> := ["status"]

  /** `len(command_pattern) + 1`: the command word and one server. */
  const MatchNeeded: nat := |CommandPattern| + 1

  /** What the status query yields: the `result` column of each row, or the
      error that interrupted it (an error after some rows overrides them). */
  datatype Query = Rows(rows: seq<string>) | Failed(error: string)

  /** `[m.lower() for m in message]`: each token keeps its length and order,
      and each of its characters is lowered on its own. */
  function Lowered(message: seq<string>): (r: seq<string>)
    ensures |r| == |message|
    ensures forall k | 0 <= k < |r| :: |r[k]| == |message[k]|
    ensures forall k, i | 0 <= k < |r| && 0 <= i < |r[k]| ::
              r[k][i] == LowerChar(message[k][i]) && !('A' <= r[k][i] <= 'Z')
  {
    LoweredChars(message);
    seq(|message|, k requires 0 <= k < |message| => Lower(message[k]))
  }

  lemma LoweredChars(message: seq<string>)
    ensures forall k | 0 <= k < |message| :: |Lower(message[k])| == |message[k]|
    ensures forall k, i | 0 <= k < |message| && 0 <= i < |message[k]| ::
              Lower(message[k])[i] == LowerChar(message[k][i]) && !('A' <= Lower(message[k])[i] <= 'Z')
  {
    forall k | 0 <= k < |message| {
      LowerChars(message[k]);
    }
  }

  /** `w` and `p` are the same word up to ASCII case. */
  predicate SameUpToCase(w: string, p: string) {
    |w| == |p| && forall i | 0 <= i < |w| :: LowerChar(w[i]) == LowerChar(p[i])
  }

  /** The command fires exactly when some token spells `status` in any case. */
  lemma TriggeredAnyCase(message: seq<string>)
    ensures Triggered(message) <==> exists k | 0 <= k < |message| :: SameUpToCase(message[k], "status")
  {
    var p := CommandPattern[0];
    assert p == "status";
    assert forall i | 0 <= i < |p| :: LowerChar(p[i]) == p[i];
    var lowered := Lowered(message);
    if Triggered(message) {
      var k :| 0 <= k < |lowered| && lowered[k] == p;
      assert SameUpToCase(message[k], p);
    }
    if k :| 0 <= k < |message| && SameUpToCase(message[k], p) {
      assert lowered[k] == p;
    }
  }

  /** The command word is present, in any case; it counts once however often. */
  predicate Triggered(message: seq<string>) {
    CommandPattern[0] in Lowered(message)
  }

  /** A Slack link `target|name` with exactly one bar is reduced to the
      part after the bar; anything else is taken whole. */
  function LinkTarget(m: string): string {
    if CountChar(m, '|') == 1 then AfterFirst(m, '|') else m
  }

  /** The candidate server name for the `k`-th token. */
  function Candidate(message: seq<string>, k: nat): string
    requires k < |message|
  {
    LinkTarget(Lower(message[k]))
  }

  /** The last candidate among the first `n` tokens that fits the server
      pattern: later mentions overwrite earlier ones. */
  function LastServer(message: seq<string>, n: nat, isServer: string -> bool): (s: Option<string>)
    requires n <= |message|
    ensures s.Some? <==> exists k | 0 <= k < n :: isServer(Candidate(message, k))
    ensures s.Some? ==> exists k | 0 <= k < n ::
              s.value == Candidate(message, k) && isServer(s.value)
              && forall j | k < j < n :: !isServer(Candidate(message, j))
  {
    if n == 0 then None
    else if isServer(Candidate(message, n - 1)) then Some(Candidate(message, n - 1))
    else LastServer(message, n - 1, isServer)
  }

  function StatusLine(server: string, row: string): string {
    "*Server Status: " + server + "* ```" + row + "```"
  }

  function ErrorLine(error: string): string {
    "Sorry, I ran into an error trying to get the status of that server: ```" + error + "```"
  }

  /** The result once the plugin has matched: the last row's status line, no
      output at all when the query returns no rows, or the error. */
  function Report(server: string, outcome: Query): Plugin.Result {
    match outcome
    case Rows(rows) =>
      Plugin.Result(1, if rows == [] then None else Some(StatusLine(server, rows[|rows| - 1])), false, None)
    case Failed(error) =>
      Plugin.Result(1, Some(ErrorLine(error)), false, None)
  }

  /** `run(message, user, email)`; `scriptLoads` says whether the SQL script
      file could be read, `isServer` is the compiled server pattern and `query`
      the outcome of connecting to a server and running the script. A script
      that cannot be read answers "no match" before the message is looked at. */
  method Run(message: seq<string>, user: string, email: Option<string>, scriptLoads: bool,
             isServer: string -> bool, query: string -> Query)
    returns (r: Plugin.Result)
    ensures !scriptLoads ==> r == Plugin.NoMatch
    ensures scriptLoads && Triggered(message) && LastServer(message, |message|, isServer).Some? ==>
              r == Report(LastServer(message, |message|, isServer).value,
                          query(LastServer(message, |message|, isServer).value))
    ensures !(Triggered(message) && LastServer(message, |message|, isServer).Some?) ==>
              r == Plugin.NoMatch
  {
    if !scriptLoads {
      return Plugin.NoMatch;
    }
    r := Respond(message, isServer, query);
  }

  /** The rest of `run` once the script is loaded: the command and server
      search over the message, then the status query. */
  method Respond(message: seq<string>, isServer: string -> bool, query: string -> Query)
    returns (r: Plugin.Result)
    ensures Triggered(message) && LastServer(message, |message|, isServer).Some? ==>
              r == Report(LastServer(message, |message|, isServer).value,
                          query(LastServer(message, |message|, isServer).value))
    ensures !(Triggered(message) && LastServer(message, |message|, isServer).Some?) ==>
              r == Plugin.NoMatch
  {
    var currentMatch := 0;
    r := Plugin.NoMatch;
    var lowered := Lowered(message);
    for i := 0 to |CommandPattern|
      invariant currentMatch == (if i == 1 && Triggered(message) then 1 else 0)
    {
      if CommandPattern[i] in lowered {
        currentMatch := currentMatch + 1;
      }
    }
    var server: Option<string> := None;
    if currentMatch > 0 {
      for k := 0 to |lowered|
        invariant server == LastServer(message, k, isServer)
        invariant currentMatch >= 1 && (currentMatch >= MatchNeeded <==> server.Some?)
      {
        var m := if CountChar(lowered[k], '|') == 1 then AfterFirst(lowered[k], '|') else lowered[k];
        if isServer(m) {
          server := Some(m);
          currentMatch := currentMatch + 1;
        }
      }
    }
    if currentMatch >= MatchNeeded {
      r := r.(matched := 1);
      match query(server.value)
      case Rows(rows) =>
        for k := 0 to |rows|
          invariant r == Plugin.Result(1, if k == 0 then None else Some(StatusLine(server.value, rows[k - 1])), false, None)
        {
          r := r.(output := Some(StatusLine(server.value, rows[k])));
        }
      case Failed(error) =>
        r := r.(output := Some(ErrorLine(error)));
    }
  }

  // ---------------------------------------------------------------------
  // The default server pattern
  //   ([a-z,0-9]{2,3}-.{3,9}-[0-9]{1,3})|([0-9]{0,2}\.[0-9]{0,2}\.[0-9]{0,2}\.[0-9]{0,2})\w+
  // matched (anchored at the start, case-insensitively) against a candidate.

  predicate NameChar(c: char) {
    IsLetter(c) || IsDigit(c) || c == ','
  }

  /** `n` characters from `i` on satisfy the class. */
  predicate DigitsAt(m: string, i: nat, n: nat) {
    i + n <= |m| && forall j | i <= j < i + n :: IsDigit(m[j])
  }

  /** The first alternative with `a` name characters, `b` arbitrary
      characters and `d` digits: a name such as `ab-host01-12`. */
  predicate CaNameWith(m: string, a: nat, b: nat, d: nat) {
    a + b + d + 2 <= |m|
    && (forall j | 0 <= j < a :: NameChar(m[j]))
    && m[a] == '-'
    && (forall j | a + 1 <= j < a + 1 + b :: m[j] != '\n')
    && m[a + 1 + b] == '-'
    && DigitsAt(m, a + 2 + b, d)
  }

  /** The second alternative with digit groups of `p`, `q`, `s` and `t`
      digits, followed by `w` word characters: an address such as `10.1.2.3x`. */
  predicate AddressWith(m: string, p: nat, q: nat, s: nat, t: nat, w: nat) {
    var i := p;
    var j := i + 1 + q;
    var k := j + 1 + s;
    var e := k + 1 + t;
    e + w <= |m|
    && DigitsAt(m, 0, p) && m[i] == '.'
    && DigitsAt(m, i + 1, q) && m[j] == '.'
    && DigitsAt(m, j + 1, s) && m[k] == '.'
    && DigitsAt(m, k + 1, t)
    && forall x | e <= x < e + w :: IsWordChar(m[x])
  }

  /** `re.match(default_pattern, m, re.IGNORECASE)` succeeds: a match is at
      least four characters long and has a `-` or a `.` in it. */
  predicate DefaultServerPattern(m: string): (matched: bool)
    ensures matched ==> |m| >= 4 && ('-' in m || '.' in m)
  {
    (exists a: nat, b: nat, d: nat | 2 <= a <= 3 && 3 <= b <= 9 && 1 <= d <= 3 :: CaNameWith(m, a, b, d))
    || (exists p: nat, q: nat, s: nat, t: nat, w: nat | p <= 2 && q <= 2 && s <= 2 && t <= 2 && 1 <= w <= |m| ::
          AddressWith(m, p, q, s, t, w))
  }

  // ---------------------------------------------------------------------
  // Properties

  lemma {:induction false} CountCharAppend(a: string, b: string, c: char)
    ensures CountChar(a + b, c) == CountChar(a, c) + CountChar(b, c)
    decreases |a|
  {
    if a == [] {
      assert a + b == b;
    } else {
      assert (a + b)[1..] == a[1..] + b;
      CountCharAppend(a[1..], b, c);
    }
  }

  lemma {:induction false} CountCharAbsent(s: string, c: char)
    requires c !in s
    ensures CountChar(s, c) == 0
    decreases |s|
  {
    if s != [] {
      assert c !in s[1..];
      CountCharAbsent(s[1..], c);
    }
  }

  lemma {:induction false} AfterFirstSkips(a: string, b: string, c: char)
    requires c !in a
    ensures AfterFirst(a + [c] + b, c) == b
    decreases |a|
  {
    if a == [] {
      assert a + [c] + b == [c] + b;
    } else {
      assert (a + [c] + b)[1..] == a[1..] + [c] + b;
      assert c !in a[1..];
      AfterFirstSkips(a[1..], b, c);
    }
  }

  /** A link `target|name` names the server by its name. */
  lemma LinkTargetIsLabel(target: string, name: string)
    requires '|' !in target && '|' !in name
    ensures LinkTarget(target + "|" + name) == name
  {
    CountCharAppend(target + "|", name, '|');
    CountCharAppend(target, "|", '|');
    CountCharAbsent(target, '|');
    CountCharAbsent(name, '|');
    AfterFirstSkips(target, name, '|');
  }

  /** A token with more than one bar is taken whole. */
  lemma LinkTargetManyBars(a: string, b: string, c: string)
    ensures LinkTarget(a + "|" + b + "|" + c) == a + "|" + b + "|" + c
  {
    CountCharAppend(a + "|" + b + "|", c, '|');
    CountCharAppend(a + "|" + b, "|", '|');
    CountCharAppend(a + "|", b, '|');
    CountCharAppend(a, "|", '|');
  }

  /** The name forms the default pattern accepts: two or three name
      characters, a hyphen, three to nine characters, a hyphen and a digit. */
  lemma CaNameAccepted(m: string)
    requires |m| >= 8 && NameChar(m[0]) && NameChar(m[1]) && m[2] == '-'
    requires m[3] != '\n' && m[4] != '\n' && m[5] != '\n' && m[6] == '-' && IsDigit(m[7])
    ensures DefaultServerPattern(m)
  {
    assert CaNameWith(m, 2, 3, 1);
  }

  /** A name whose hyphen comes after four name characters is refused by the
      first alternative, as is any text that starts with a letter by the second. */
  lemma LongPrefixRefused(m: string)
    requires |m| >= 4 && IsLetter(m[0]) && forall j | 0 <= j < 4 :: NameChar(m[j])
    ensures !DefaultServerPattern(m)
  {
    forall p: nat, q: nat, s: nat, t: nat, w: nat | p <= 2 && q <= 2 && s <= 2 && t <= 2 && 1 <= w <= |m|
      ensures !AddressWith(m, p, q, s, t, w)
    {
      if p > 0 { assert !IsDigit(m[0]); }
    }
    forall a: nat, b: nat, d: nat | 2 <= a <= 3 && 3 <= b <= 9 && 1 <= d <= 3
      ensures !CaNameWith(m, a, b, d)
    {
      assert NameChar(m[a]);
    }
  }
}
