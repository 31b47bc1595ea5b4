/**
  The bot's message handling (jarvis.py): which incoming events are handled
  and how (`main`, lines 177-190), and `process_message` (lines 82-153),
  which answers help requests, hands the tokens to the enabled plugins until
  one matches, and replies, uploads a file or falls back to a joke.  The Slack
  side is recorded as a trace of actions.
*/
module Jarvis {
  import opened Wrappers
  import opened Text
  import Tokenizer
  import Plugin
  import UserCache

  // ---------------------------------------------------------------------
  // Classification (main, lines 177-190)

  /** An event read from the real-time stream; `user` and `text` are `None`
      when the event has no such key. */
  datatype RtmMessage = RtmMessage(channel: string, user: Option<string>, text: Option<string>)

  /** A message handed to `process_message`. */
  datatype Incoming = Incoming(channel: string, user: string, tokens: seq<string>, kind: Plugin.Kind)

  /** `<@bot>`, the way Slack writes a mention of the bot. */
  function Mention(bot: string): string {
    "<@" + bot + ">"
  }

  /** The text that is tokenized: slashes become spaces (so that URLs fall
      apart into words) and mentions of the bot are removed. */
  function Prepared(text: string, bot: string): string {
    RemoveAll(ReplaceChar(text, '/', " "), Mention(bot))
  }

  /** Which events are handled, and as what: only events with text and a
      sender other than the bot; active when the bot's id occurs in the text. */
  function Classify(m: RtmMessage, bot: string): (r: Option<Incoming>)
    ensures r.Some? <==> m.text.Some? && m.user.Some? && m.user.value != bot
    ensures r.Some? ==> r.value.channel == m.channel && r.value.user == m.user.value
                        && (r.value.kind.Active? <==> Contains(m.text.value, bot))
  {
    if m.text.None? || m.user.None? || m.user.value == bot then None
    else
      var text := m.text.value;
      Some(Incoming(m.channel, m.user.value, Tokenizer.TokensOf(Prepared(text, bot)),
                    if Contains(text, bot) then Plugin.Active else Plugin.Passive))
  }

  // ---------------------------------------------------------------------
  // Plugins and the trace

  /** A loaded plugin: its directory name, type, help text, and what `run`
      returns for the tokens, the sender and the sender's address. */
  datatype LoadedPlugin = LoadedPlugin(
    name: string, kind: Plugin.Kind, purpose: string,
    run: (seq<string>, string, Option<string>) -> Plugin.Result)

  /** What `process_message` does towards Slack and the file system. */
  datatype Action =
    | Send(channel: string, text: string)
    | Upload(channel: string, path: string, comment: string)
    | Remove(path: string)

  /** The actions taken, the names of the plugins whose `run` was called, in
      order, and whether the call ended in an uncaught exception. */
  datatype Trace = Trace(actions: seq<Action>, ran: seq<string>, crashed: bool)

  const DefaultPlugins: string := "sql_status jira pagerduty"

  /** The `PLUGINS` setting, or the default when it is not set. */
  function PluginsSetting(env: Option<string>): string {
    match env case Some(s) => s case None => DefaultPlugins
  }

  /** The installed plugins whose name occurs in the setting, in load order. */
  function Enabled(installed: seq<LoadedPlugin>, setting: string): (r: seq<LoadedPlugin>)
    ensures |r| <= |installed|
    ensures forall p <- r :: p in installed && Contains(setting, p.name)
    ensures forall p <- installed :: Contains(setting, p.name) ==> p in r
  {
    if installed == [] then []
    else (if Contains(setting, installed[0].name) then [installed[0]] else []) + Enabled(installed[1..], setting)
  }

  function Prefix(user: string): string {
    "<@" + user + ">: "
  }

  const HelpHeader: string := "*Here is a list of my current capabilities:*"

  const FallbackHeader: string := "Sorry, I don't understand what you are trying to do, but here's a quote to hold you over:\n"

  /** The help text's body: each plugin's purpose after a blank line. */
  function Purposes(ps: seq<LoadedPlugin>): string {
    if ps == [] then [] else Purposes(ps[..|ps| - 1]) + "\r\r" + ps[|ps| - 1].purpose
  }

  predicate IsHelp(tokens: seq<string>, kind: Plugin.Kind)
    requires tokens != []
  {
    tokens[|tokens| - 1] == "help" && kind == Plugin.Active
  }

  /** The plugin is run for this message and reports a match. */
  predicate Fires(p: LoadedPlugin, tokens: seq<string>, kind: Plugin.Kind, user: string, email: Option<string>) {
    p.kind == kind && p.run(tokens, user, email).matched == 1
  }

  /** The first plugin that fires. */
  function FirstFiring(ps: seq<LoadedPlugin>, tokens: seq<string>, kind: Plugin.Kind, user: string, email: Option<string>): (i: Option<nat>)
    ensures i.Some? ==> i.value < |ps|
  {
    if ps == [] then None
    else if Fires(ps[0], tokens, kind, user, email) then Some(0)
    else match FirstFiring(ps[1..], tokens, kind, user, email)
      case None => None
      case Some(i) => Some(i + 1)
  }

  /** None of the first `n` plugins fires. */
  predicate NoneFires(ps: seq<LoadedPlugin>, n: nat, tokens: seq<string>, kind: Plugin.Kind, user: string, email: Option<string>)
    requires n <= |ps|
  {
    forall j | 0 <= j < n :: !Fires(ps[j], tokens, kind, user, email)
  }

  lemma {:induction false} FirstFiringAt(ps: seq<LoadedPlugin>, i: nat, tokens: seq<string>, kind: Plugin.Kind, user: string, email: Option<string>)
    requires i < |ps| && NoneFires(ps, i, tokens, kind, user, email) && Fires(ps[i], tokens, kind, user, email)
    ensures FirstFiring(ps, tokens, kind, user, email) == Some(i)
    decreases i
  {
    if i > 0 {
      assert !Fires(ps[0], tokens, kind, user, email);
      assert NoneFires(ps[1..], i - 1, tokens, kind, user, email) by {
        forall j | 0 <= j < i - 1 ensures !Fires(ps[1..][j], tokens, kind, user, email) {
          assert ps[1..][j] == ps[j + 1];
        }
      }
      FirstFiringAt(ps[1..], i - 1, tokens, kind, user, email);
    }
  }

  lemma {:induction false} NoFiring(ps: seq<LoadedPlugin>, tokens: seq<string>, kind: Plugin.Kind, user: string, email: Option<string>)
    requires NoneFires(ps, |ps|, tokens, kind, user, email)
    ensures FirstFiring(ps, tokens, kind, user, email) == None
    decreases |ps|
  {
    if ps != [] {
      assert !Fires(ps[0], tokens, kind, user, email);
      assert NoneFires(ps[1..], |ps| - 1, tokens, kind, user, email) by {
        forall j | 0 <= j < |ps| - 1 ensures !Fires(ps[1..][j], tokens, kind, user, email) {
          assert ps[1..][j] == ps[j + 1];
        }
      }
      NoFiring(ps[1..], tokens, kind, user, email);
    }
  }

  /** The names of the plugins among the first `n` whose type is `kind`. */
  function RunNames(ps: seq<LoadedPlugin>, n: nat, kind: Plugin.Kind): seq<string>
    requires n <= |ps|
  {
    if n == 0 then []
    else RunNames(ps, n - 1, kind) + (if ps[n - 1].kind == kind then [ps[n - 1].name] else [])
  }

  /** Help mode: one message listing every enabled plugin's purpose. */
  function HelpTrace(channel: string, user: string, ps: seq<LoadedPlugin>): Trace {
    Trace([Send(channel, Prefix(user) + HelpHeader + Purposes(ps))], [], false)
  }

  /** Lines 124-139 and 153: the reply to a matching plugin's result. */
  function ReplyTrace(channel: string, user: string, r: Plugin.Result, ran: seq<string>, uploadFails: bool): (t: Trace)
    ensures t.ran == ran && (t.crashed <==> r.output.None?)
    ensures r.output.Some? && r.file.Some? ==>
              Remove(r.file.value) in t.actions && |t.actions| == (if uploadFails then 2 else 3)
    ensures (t.actions != [] && t.actions[|t.actions| - 1].Send?) <==>
              r.output.Some? && (r.file.None? || !uploadFails)
  {
    if r.output.None? then Trace([], ran, true)
    else
      var dest := if r.direct then "@" + user else channel;
      var text := Prefix(user) + r.output.value;
      match r.file
      case None => Trace([Send(dest, text)], ran, false)
      case Some(f) =>
        if uploadFails then Trace([Upload(dest, f, text), Remove(f)], ran, false)
        else Trace([Upload(dest, f, text), Remove(f), Send(dest, text)], ran, false)
  }

  /** Lines 143-151: no plugin matched. */
  function FallbackTrace(channel: string, kind: Plugin.Kind, joke: Option<string>, ran: seq<string>): (t: Trace)
    ensures t.ran == ran && (t.crashed <==> kind.Active? && joke.None?)
    ensures |t.actions| <= 1 && (t.actions != [] <==> kind.Active? && joke.Some?)
  {
    if kind == Plugin.Passive then Trace([], ran, false)
    else if joke.None? then Trace([], ran, true)
    else Trace([Send(channel, FallbackHeader + ">" + joke.value)], ran, false)
  }

  /** What the plugin loop and what follows it do with the enabled plugins
      `ps`, for a non-empty message. */
  function Outcome(channel: string, user: string, email: Option<string>, tokens: seq<string>,
                   kind: Plugin.Kind, ps: seq<LoadedPlugin>, joke: Option<string>, uploadFails: bool): Trace
    requires tokens != []
  {
    if IsHelp(tokens, kind) then HelpTrace(channel, user, ps)
    else
      match FirstFiring(ps, tokens, kind, user, email)
      case Some(i) =>
        ReplyTrace(channel, user, ps[i].run(tokens, user, email), RunNames(ps, i + 1, kind), uploadFails)
      case None =>
        FallbackTrace(channel, kind, joke, RunNames(ps, |ps|, kind))
  }

  /** What `process_message` does once the sender's address is known. */
  function Expected(channel: string, user: string, email: Option<string>, tokens: seq<string>,
                    kind: Plugin.Kind, installed: seq<LoadedPlugin>, setting: string,
                    joke: Option<string>, uploadFails: bool): Trace
  {
    if tokens == [] then Trace([], [], true)
    else Outcome(channel, user, email, tokens, kind, Enabled(installed, setting), joke, uploadFails)
  }

  lemma ReplyOutcome(channel: string, user: string, email: Option<string>, tokens: seq<string>,
                     kind: Plugin.Kind, ps: seq<LoadedPlugin>, joke: Option<string>, uploadFails: bool, i: nat)
    requires tokens != [] && !IsHelp(tokens, kind)
    requires i < |ps| && NoneFires(ps, i, tokens, kind, user, email) && Fires(ps[i], tokens, kind, user, email)
    ensures Outcome(channel, user, email, tokens, kind, ps, joke, uploadFails)
            == ReplyTrace(channel, user, ps[i].run(tokens, user, email), RunNames(ps, i + 1, kind), uploadFails)
  {
    FirstFiringAt(ps, i, tokens, kind, user, email);
  }

  lemma FallbackOutcome(channel: string, user: string, email: Option<string>, tokens: seq<string>,
                        kind: Plugin.Kind, ps: seq<LoadedPlugin>, joke: Option<string>, uploadFails: bool)
    requires tokens != [] && !IsHelp(tokens, kind)
    requires NoneFires(ps, |ps|, tokens, kind, user, email)
    ensures Outcome(channel, user, email, tokens, kind, ps, joke, uploadFails)
            == FallbackTrace(channel, kind, joke, RunNames(ps, |ps|, kind))
  {
    NoFiring(ps, tokens, kind, user, email);
  }

  /** Lines 124-139 and 152-153. */
  method Reply(channel: string, user: string, result: Plugin.Result, response: string,
               ran: seq<string>, uploadFails: bool)
    returns (t: Trace)
    requires result.matched == 1 && response == Prefix(user)
    ensures t == ReplyTrace(channel, user, result, ran, uploadFails)
  {
    if result.output.None? {
      return Trace([], ran, true);
    }
    var text := response + result.output.value;
    var dest := channel;
    if result.direct {
      dest := "@" + user;
    }
    var actions: seq<Action> := [];
    if result.file.Some? {
      actions := [Upload(dest, result.file.value, text), Remove(result.file.value)];
      if uploadFails {
        return Trace(actions, ran, false);
      }
    }
    t := Trace(actions + [Send(dest, text)], ran, false);
  }

  /** Lines 143-151. */
  method Fallback(channel: string, messageType: Plugin.Kind, joke: Option<string>, ran: seq<string>)
    returns (t: Trace)
    ensures t == FallbackTrace(channel, messageType, joke, ran)
  {
    var actions: seq<Action> := [];
    if messageType == Plugin.Active {
      if joke.None? {
        return Trace([], ran, true);
      }
      var response := FallbackHeader + ">" + joke.value;
      actions := actions + [Send(channel, response)];
    }
    t := Trace(actions, ran, false);
  }

  /** Lines 106-115, the plugin loop in help mode: each plugin's purpose is
      appended to the response, and no plugin is run. */
  method HelpText(plugins: seq<LoadedPlugin>, response: string) returns (r: string)
    ensures r == response + Purposes(plugins)
  {
    r := response;
    var i := 0;
    while i < |plugins|
      invariant 0 <= i <= |plugins|
      invariant r == response + Purposes(plugins[..i])
    {
      assert plugins[..i + 1][..i] == plugins[..i];
      r := r + "\r\r" + plugins[i].purpose;
      i := i + 1;
    }
    assert plugins[..|plugins|] == plugins;
  }

  /** Lines 106-153 outside help mode: the plugins of the message's type are
      run in order until one matches, whose result is replied; otherwise the
      fallback. */
  method Search(channel: string, user: string, email: Option<string>, messageText: seq<string>,
                messageType: Plugin.Kind, plugins: seq<LoadedPlugin>, joke: Option<string>, uploadFails: bool)
    returns (t: Trace)
    requires messageText != [] && !IsHelp(messageText, messageType)
    ensures t == Outcome(channel, user, email, messageText, messageType, plugins, joke, uploadFails)
  {
    var result := Plugin.NoMatch;
    var response := Prefix(user);
    var ran: seq<string> := [];
    var i := 0;
    while i < |plugins|
      invariant 0 <= i <= |plugins|
      invariant result.matched != 1 && ran == RunNames(plugins, i, messageType)
      invariant NoneFires(plugins, i, messageText, messageType, user, email)
    {
      var p := plugins[i];
      if p.kind == messageType {
        result := p.run(messageText, user, email);
        ran := ran + [p.name];
      }
      if result.matched == 1 {
        ReplyOutcome(channel, user, email, messageText, messageType, plugins, joke, uploadFails, i);
        t := Reply(channel, user, result, response, ran, uploadFails);
        return;
      }
      i := i + 1;
    }
    FallbackOutcome(channel, user, email, messageText, messageType, plugins, joke, uploadFails);
    t := Fallback(channel, messageType, joke, ran);
  }

  /** Lines 86-153 of `process_message`, once the sender's address is known;
      `joke` is the fetched joke (`None` when the request fails) and
      `uploadFails` whether `files.upload` raises. */
  method Dispatch(channel: string, user: string, email: Option<string>, messageText: seq<string>,
                  messageType: Plugin.Kind, installed: seq<LoadedPlugin>, setting: string,
                  joke: Option<string>, uploadFails: bool)
    returns (t: Trace)
    ensures t == Expected(channel, user, email, messageText, messageType, installed, setting, joke, uploadFails)
  {
    var response := Prefix(user);
    if |messageText| == 0 {
      return Trace([], [], true);
    }
    var isHelp := messageText[|messageText| - 1] == "help" && messageType == Plugin.Active;
    var plugins := Enabled(installed, setting);
    if isHelp {
      response := HelpText(plugins, response + HelpHeader);
      t := Trace([Send(channel, response)], [], false);
    } else {
      t := Search(channel, user, email, messageText, messageType, plugins, joke, uploadFails);
    }
  }

  /** `process_message(channel, user, message_text, message_type, client)`:
      the sender's address is looked up (and cached) first, then the message
      is dispatched. */
  method ProcessMessage(users: UserCache.UserTable, roster: Option<seq<UserCache.Member>>,
                        channel: string, user: string, messageText: seq<string>,
                        messageType: Plugin.Kind, installed: seq<LoadedPlugin>,
                        pluginsEnv: Option<string>, joke: Option<string>, uploadFails: bool)
    returns (t: Trace)
    modifies users
    ensures users.emails == UserCache.Stored(old(users.emails), user, roster)
    ensures t == Expected(channel, user, UserCache.Lookup(old(users.emails), user, roster),
                          messageText, messageType, installed, PluginsSetting(pluginsEnv), joke, uploadFails)
  {
    var email := users.GetUserDetails(user, roster);
    var setting := if pluginsEnv.Some? then pluginsEnv.value else DefaultPlugins;
    t := Dispatch(channel, user, email, messageText, messageType, installed, setting, joke, uploadFails);
  }

  /** One event of the main loop (lines 177-193): skipped, or classified and
      processed (on its own thread in the source). */
  method OnMessage(users: UserCache.UserTable, roster: Option<seq<UserCache.Member>>,
                   m: RtmMessage, bot: string, installed: seq<LoadedPlugin>,
                   pluginsEnv: Option<string>, joke: Option<string>, uploadFails: bool)
    returns (t: Option<Trace>)
    modifies users
    ensures Classify(m, bot).None? ==> t.None? && users.emails == old(users.emails)
    ensures Classify(m, bot).Some? ==>
              var msg := Classify(m, bot).value;
              users.emails == UserCache.Stored(old(users.emails), msg.user, roster)
              && t == Some(Expected(msg.channel, msg.user, UserCache.Lookup(old(users.emails), msg.user, roster),
                                    msg.tokens, msg.kind, installed, PluginsSetting(pluginsEnv), joke, uploadFails))
  {
    if m.text.None? || m.user.None? {
      return None;
    }
    if m.user.value == bot {
      return None;
    }
    var tokens := Tokenizer.Tokenize(Prepared(m.text.value, bot));
    var kind := if Contains(m.text.value, bot) then Plugin.Active else Plugin.Passive;
    var trace := ProcessMessage(users, roster, m.channel, m.user.value, tokens, kind, installed, pluginsEnv, joke, uploadFails);
    t := Some(trace);
  }

  // ---------------------------------------------------------------------
  // Properties

  /** The bot never answers itself, and events without text or sender are
      skipped. */
  lemma SkippedEvents(m: RtmMessage, bot: string)
    requires m.text.None? || m.user.None? || m.user == Some(bot)
    ensures Classify(m, bot).None?
  {
  }

  /** A message that mentions the bot is active. */
  lemma MentionIsActive(m: RtmMessage, bot: string)
    requires m.text.Some? && m.user.Some? && m.user.value != bot
    requires Contains(m.text.value, Mention(bot))
    ensures Classify(m, bot).Some? && Classify(m, bot).value.kind == Plugin.Active
  {
    var text, mention := m.text.value, Mention(bot);
    var i :| 0 <= i <= |text| && OccursAt(text, mention, i);
    forall k | 0 <= k < |bot| ensures text[i + 2 + k] == bot[k] {
      assert text[i..i + |mention|][2 + k] == mention[2 + k];
    }
    assert text[i + 2..i + 2 + |bot|] == bot;
    assert OccursAt(text, bot, i + 2);
  }

  /** Slashes never reach the plugins: every one became a space. */
  lemma NoSlashInTokens(m: RtmMessage, bot: string)
    requires Classify(m, bot).Some?
    ensures forall t <- Classify(m, bot).value.tokens :: '/' !in t
  {
    var text := m.text.value;
    var prepared := Prepared(text, bot);
    ReplaceCharChars(text, '/', " ");
    RemoveAllChars(ReplaceChar(text, '/', " "), Mention(bot));
    assert '/' !in prepared;
    forall t <- Classify(m, bot).value.tokens ensures '/' !in t {
      Tokenizer.TokenChars(prepared, t);
    }
  }

  /** A plugin is enabled exactly when it is installed and its name occurs
      in the setting (as a substring). */
  lemma {:induction false} EnabledMembers(installed: seq<LoadedPlugin>, setting: string, p: LoadedPlugin)
    ensures p in Enabled(installed, setting) <==> p in installed && Contains(setting, p.name)
    decreases |installed|
  {
    if installed != [] {
      EnabledMembers(installed[1..], setting, p);
      assert installed == [installed[0]] + installed[1..];
    }
  }

  /** Enabling keeps the load order. */
  lemma {:induction false} EnabledAppend(a: seq<LoadedPlugin>, b: seq<LoadedPlugin>, setting: string)
    ensures Enabled(a + b, setting) == Enabled(a, setting) + Enabled(b, setting)
    decreases |a|
  {
    if a != [] {
      assert (a + b)[1..] == a[1..] + b && (a + b)[0] == a[0];
      EnabledAppend(a[1..], b, setting);
      var first := if Contains(setting, a[0].name) then [a[0]] else [];
      assert first + (Enabled(a[1..], setting) + Enabled(b, setting))
          == (first + Enabled(a[1..], setting)) + Enabled(b, setting);
    } else {
      assert a + b == b;
    }
  }

  /** The default setting enables the three plugins of the repository. */
  lemma DefaultEnablesAll()
    ensures Contains(DefaultPlugins, "sql_status")
    ensures Contains(DefaultPlugins, "jira")
    ensures Contains(DefaultPlugins, "pagerduty")
  {
    assert OccursAt(DefaultPlugins, "sql_status", 0);
    assert OccursAt(DefaultPlugins, "jira", 11);
    assert OccursAt(DefaultPlugins, "pagerduty", 16);
  }

  /** Every listed plugin's purpose is in the help text. */
  lemma {:induction false} PurposesListed(ps: seq<LoadedPlugin>, p: LoadedPlugin)
    requires p in ps
    ensures Contains(Purposes(ps), p.purpose)
    decreases |ps|
  {
    var init, last := ps[..|ps| - 1], ps[|ps| - 1];
    if p == last {
      ContainsSelf(p.purpose);
      ContainsExtended(p.purpose, p.purpose, Purposes(init) + "\r\r", []);
      assert Purposes(init) + "\r\r" + p.purpose + [] == Purposes(ps);
    } else {
      assert p in init by { var k :| 0 <= k < |ps| && ps[k] == p; assert init[k] == p; }
      PurposesListed(init, p);
      ContainsExtended(Purposes(init), p.purpose, [], "\r\r" + last.purpose);
      assert [] + Purposes(init) + ("\r\r" + last.purpose) == Purposes(ps);
    }
  }

  /** Help: no plugin is run, and one message goes back to the channel that
      lists the purpose of every enabled plugin. */
  lemma HelpAnswer(channel: string, user: string, email: Option<string>, tokens: seq<string>,
                   kind: Plugin.Kind, installed: seq<LoadedPlugin>, setting: string,
                   joke: Option<string>, uploadFails: bool)
    requires tokens != [] && IsHelp(tokens, kind)
    ensures var t := Expected(channel, user, email, tokens, kind, installed, setting, joke, uploadFails);
      t.ran == [] && !t.crashed && |t.actions| == 1 && t.actions[0].Send? && t.actions[0].channel == channel
      && forall p <- Enabled(installed, setting) :: Contains(t.actions[0].text, p.purpose)
  {
    var ps := Enabled(installed, setting);
    forall p <- ps ensures Contains(Prefix(user) + HelpHeader + Purposes(ps), p.purpose) {
      PurposesListed(ps, p);
      ContainsExtended(Purposes(ps), p.purpose, Prefix(user) + HelpHeader, []);
      assert Prefix(user) + HelpHeader + Purposes(ps) + [] == Prefix(user) + HelpHeader + Purposes(ps);
    }
  }

  /** The names run are those of plugins of the given type, in order. */
  lemma {:induction false} RunNamesOfKind(ps: seq<LoadedPlugin>, n: nat, kind: Plugin.Kind)
    requires n <= |ps|
    ensures forall x <- RunNames(ps, n, kind) :: exists j | 0 <= j < n :: ps[j].kind == kind && ps[j].name == x
    decreases n
  {
    if n > 0 {
      RunNamesOfKind(ps, n - 1, kind);
    }
  }

  /** Only enabled plugins of the message's type are ever run. */
  lemma RunOnlyMatchingType(channel: string, user: string, email: Option<string>, tokens: seq<string>,
                            kind: Plugin.Kind, installed: seq<LoadedPlugin>, setting: string,
                            joke: Option<string>, uploadFails: bool)
    ensures forall x <- Expected(channel, user, email, tokens, kind, installed, setting, joke, uploadFails).ran ::
              exists p <- Enabled(installed, setting) :: p.kind == kind && p.name == x
  {
    if tokens != [] {
      OutcomeRunsOfKind(channel, user, email, tokens, kind, Enabled(installed, setting), joke, uploadFails);
    }
  }

  lemma OutcomeRunsOfKind(channel: string, user: string, email: Option<string>, tokens: seq<string>,
                          kind: Plugin.Kind, ps: seq<LoadedPlugin>, joke: Option<string>, uploadFails: bool)
    requires tokens != []
    ensures forall x <- Outcome(channel, user, email, tokens, kind, ps, joke, uploadFails).ran ::
              exists p <- ps :: p.kind == kind && p.name == x
  {
    if !IsHelp(tokens, kind) {
      var n := match FirstFiring(ps, tokens, kind, user, email) case Some(i) => i + 1 case None => |ps|;
      var t := Outcome(channel, user, email, tokens, kind, ps, joke, uploadFails);
      assert t.ran == RunNames(ps, n, kind) by {
        match FirstFiring(ps, tokens, kind, user, email)
        case Some(i) =>
          assert t == ReplyTrace(channel, user, ps[i].run(tokens, user, email), RunNames(ps, i + 1, kind), uploadFails);
        case None =>
          assert t == FallbackTrace(channel, kind, joke, RunNames(ps, |ps|, kind));
      }
      RunNamesOfKind(ps, n, kind);
      forall x <- t.ran
        ensures exists p <- ps :: p.kind == kind && p.name == x
      {
        var j :| 0 <= j < n && ps[j].kind == kind && ps[j].name == x;
        assert ps[j] in ps;
      }
    }
  }

  /** Without a match, a passive message is left alone, and an active one
      gets the joke (or ends in an error when none could be fetched). */
  lemma NoMatchAnswer(channel: string, user: string, email: Option<string>, tokens: seq<string>,
                      kind: Plugin.Kind, installed: seq<LoadedPlugin>, setting: string,
                      joke: Option<string>, uploadFails: bool)
    requires tokens != [] && !IsHelp(tokens, kind)
    requires NoneFires(Enabled(installed, setting), |Enabled(installed, setting)|, tokens, kind, user, email)
    ensures var t := Expected(channel, user, email, tokens, kind, installed, setting, joke, uploadFails);
      && (kind == Plugin.Passive ==> t.actions == [] && !t.crashed)
      && (kind == Plugin.Active && joke.Some? ==> t.actions == [Send(channel, FallbackHeader + ">" + joke.value)] && !t.crashed)
      && (kind == Plugin.Active && joke.None? ==> t.crashed)
  {
    FallbackOutcome(channel, user, email, tokens, kind, Enabled(installed, setting), joke, uploadFails);
  }

  /** With a match, the first matching plugin answers: after it no plugin is
      run; a file is uploaded once, with the reply as its comment, and then
      removed, whether or not the upload raised, and the reply is sent only
      when it did not; the reply goes to the sender directly when the plugin
      asks for it. */
  lemma MatchAnswer(channel: string, user: string, email: Option<string>, tokens: seq<string>,
                    kind: Plugin.Kind, installed: seq<LoadedPlugin>, setting: string,
                    joke: Option<string>, uploadFails: bool, i: nat)
    requires tokens != [] && !IsHelp(tokens, kind)
    requires var ps := Enabled(installed, setting);
      i < |ps| && NoneFires(ps, i, tokens, kind, user, email) && Fires(ps[i], tokens, kind, user, email)
    ensures var ps := Enabled(installed, setting);
      var r := ps[i].run(tokens, user, email);
      var t := Expected(channel, user, email, tokens, kind, installed, setting, joke, uploadFails);
      && t.ran == RunNames(ps, i + 1, kind) && |t.ran| > 0 && t.ran[|t.ran| - 1] == ps[i].name
      && (r.output.None? ==> t.crashed && t.actions == [])
      && (r.output.Some? ==>
            var dest := if r.direct then "@" + user else channel;
            var text := Prefix(user) + r.output.value;
            !t.crashed
            && (r.file.Some? ==>
                  t.actions == [Upload(dest, r.file.value, text), Remove(r.file.value)]
                               + (if uploadFails then [] else [Send(dest, text)]))
            && (r.file.None? ==> t.actions == [Send(dest, text)]))
  {
    var ps := Enabled(installed, setting);
    ReplyOutcome(channel, user, email, tokens, kind, ps, joke, uploadFails, i);
  }
}
