# Jarvis, modelled in Dafny

Jarvis is a Slack bot with plugins. The model covers the logic between a
message arriving and the bot's reply:

- **Classification.** The main loop decides which real-time events are handled. A message is *active* when it names the bot and *passive* otherwise, and the loop decides which text is tokenized.
- **Tokenizer.** A quote-aware tokenizer turns that text into tokens.
- **`process_message`.** It answers `help`, runs the enabled plugins of the message's type until one matches, and delivers that plugin's answer. The answer can be a message to the channel, a direct message, or an uploaded file that is removed afterwards. When nothing matches and the message is active, it sends a joke.
- **User cache.** A cache maps Slack user ids to e-mail addresses and is filled from the workspace roster.
- **Matchers.** Three plugins decide whether a message is for them:
  - PagerDuty scores three command patterns;
  - the server-status plugin needs the word `status` and a server name;
  - the JIRA plugin looks for issue keys.
  Each matcher also shapes its result.

Slack, HTTP, SQL Server, SQLite, JIRA and the clock are not modelled. Their outcomes are parameters:

- the roster as an optional sequence of members;
- the joke as an optional string;
- whether an upload fails;
- PagerDuty's answers as a `Service` value;
- the status query as a function to a `Query`;
- the JIRA client as a lookup function.

Towards Slack, `process_message` is recorded as a `Trace`. A trace lists the sends, uploads and removals in order, the names of the plugins whose `run` was called, and whether the call ended in an uncaught exception.

Modules and files:

| file | module | contents |
|---|---|---|
| `wrappers.dfy` | `Wrappers` | `Option` |
| `text.dfy` | `Text` | Python string operations: whitespace split, `join`, `replace`, substring search, ASCII `lower`, `count`, and taking the part after a separator |
| `plugin.dfy` | `Plugin` | plugin kind and result dictionary |
| `tokenizer.dfy` | `Tokenizer` | `tokenize` |
| `user_cache.dfy` | `UserCache` | `get_user_details` as a class over a map |
| `jarvis.dfy` | `Jarvis` | classification and `process_message` |
| `pagerduty.dfy` | `PagerDuty` | the PagerDuty plugin |
| `sql_status.dfy` | `SqlStatus` | the server-status plugin |
| `jira.dfy` | `Jira` | the JIRA plugin |

Each loop in the source is a method with invariants:

- `Tokenizer.Tokenize`;
- `PagerDuty.PatternScore`, `SelectCommand` and `ListOnCall`;
- `SqlStatus.Respond` (what `SqlStatus.Run` does once its script is read) and `Jira.Run`;
- `Jarvis.HelpText` and `Search`;
- `UserCache.UserTable.GetUserDetails`.

Each is proved equal to a specification function: `TokensOf`, `Score`, `Branch`, `Listing`, `LastServer`, `Scan`, `Purposes`, `Outcome`, `Lookup` and `Stored`. The lemmas then state what the source promises about those functions.

Where the code and its description differ, the model follows the code:

- **Unclosed quote.** After an unclosed `"`, the words left in the buffer are emitted one by one. So `a "b c` gives `a`, `b`, `c`, not `a`, `b c`.
- **Quote flag.** The flag is never cleared after the first `"`. Every later `"` closes the span buffered since the previous one.
- **Plugin enabling.** A plugin is enabled when its name is a *substring* of the `PLUGINS` setting. So a plugin named `sql` would also be enabled by the default `sql_status jira pagerduty`.
- **Help purpose example.** The server-status plugin's help text suggests `Whats the status of server-102?`. The built-in server pattern refuses `server-102`, because the hyphen must come after two or three name characters (`SqlStatus.LongPrefixRefused`).

## Model

| member | source | states |
|---|---|---|
| Tokenizer.Tokenize | tokenizer.py:1-24 | the loop over the prepared words, then the flush loop, returns exactly `TokensOf(text)` |
| Tokenizer.Step | tokenizer.py:7-18 | one turn of the loop: a word containing `"` turns quote mode on for good, tokens are only ever appended (at most one per word), and before the first `"` the buffer is left alone |
| Tokenizer.Flush | tokenizer.py:20-22 | the flush keeps the tokens already made in front, adds at most one token per buffered word, and no added token contains `"` |
| Tokenizer.UnquotedShape | tokenizer.py:21 | dropping the lone `"` words and deleting `"` from the others leaves at most as many words as were buffered, none containing `"` |
| Tokenizer.WordsShaped | tokenizer.py:6 | every word the loop visits is a lone `"` or contains neither `"` nor `?` |
| Tokenizer.RunConsistent | tokenizer.py:6-18 | after any prefix of the words, the tokens so far are clean, the buffer is empty outside quote mode, and the tokens re-split on whitespace followed by the buffered words equal the words seen, `"` marks dropped |
| Tokenizer.TokensClean | tokenizer.py:6-22 | no token contains `?` or `"` |
| Tokenizer.TokensKeepWords | tokenizer.py:6-22 | re-splitting every token on whitespace and concatenating gives the input's words in order, once `?` is deleted and `"` is a space |
| Tokenizer.TokenChars | tokenizer.py:6-22 | every character of a token is whitespace or occurs in the input |
| Tokenizer.TokensWithoutQuotes | tokenizer.py:6-18 | without `"`, the tokens are the whitespace split of the input with `?` deleted |
| Tokenizer.RunWithoutQuotes | tokenizer.py:14-18 | quote-free words leave the flag off and the buffer empty, and each becomes a token |
| Tokenizer.QuoteFlag | tokenizer.py:7-13 | the quote flag is on exactly when some word so far contained `"`: set by the first one and never cleared |
| Tokenizer.BufferEmptyOutsideQuote | tokenizer.py:3-18 | while the flag is off the buffer is empty |
| Tokenizer.BufferSinceLastQuote | tokenizer.py:7-16 | once in quote mode, the buffer (without `"` marks) is exactly the words after the latest `"` |
| Tokenizer.ClosingQuoteEmptiesBuffer | tokenizer.py:9-11 | right after a `"`, nothing is left in the buffer but `"` marks |
| Tokenizer.OpenQuote | tokenizer.py:12-13 | the first `"` only switches quote mode on and starts the buffer |
| Tokenizer.CloseQuote | tokenizer.py:9-11 | a later `"` emits the buffered words without `"` marks, joined by single spaces, as one token, and clears the buffer |
| Tokenizer.QuoteClosesSpan | tokenizer.py:10 | the token a `"` emits is clean and re-splits into exactly the buffered words |
| Tokenizer.PlainWords | tokenizer.py:14-18 | outside quote mode, quote-free words become tokens one by one |
| Tokenizer.BufferedWords | tokenizer.py:14-16 | in quote mode, quote-free words are only buffered |
| Tokenizer.UnquotedPrepared | tokenizer.py:6-10 | dropping the `"` words of the prepared text and deleting `"` from the rest is splitting the text with `"` blanked |
| Tokenizer.WordsOfJoin | tokenizer.py:6 | text laid out as words and lone `"` marks separated by single spaces is split back into exactly those words |
| Tokenizer.OneQuotedSpan | tokenizer.py:6-22 | `x.. "y.." z..` gives the x's, the y's joined as one token, then the z's one by one (`say "hello world" now` gives `say`, `hello world`, `now`) |
| Tokenizer.ClosedSpan | tokenizer.py:6-13 | after plain words and one closed span, the state is those words and the joined span, in quote mode, with an empty buffer |
| Tokenizer.SeveralSpans | tokenizer.py:7-13 | `a "b c" d "e"` gives `a`, `b c`, `d`, `e`: after the first span every `"` closes what was buffered since the previous one |
| Tokenizer.SpanInQuote | tokenizer.py:9-16 | in quote mode with an empty buffer, words followed by `"` add one joined token |
| Tokenizer.UnterminatedSpan | tokenizer.py:20-22 | with an unclosed `"`, the words after it are emitted separately (`a "b c` gives `a`, `b`, `c`) |
| Tokenizer.AdjacentQuotes | tokenizer.py:6-11 | `""` yields one empty token |
| Tokenizer.BlankInput | tokenizer.py:6-24 | input made only of whitespace and `?` (the empty input included) has no tokens |
| Tokenizer.QuestionMarkDropped | tokenizer.py:6 | `what?` gives `what` |
| Tokenizer.SentenceOfPlainWords | tokenizer.py:6-18 | plain words typed with single spaces, with or without a closing `?`, tokenize to exactly those words |
| Tokenizer.GluedQuoteSpan | tokenizer.py:6-22 | a run of whitespace separates words like one space, and a `"` glued to the end of a word opens a span or closes it: the words before the span come out one by one, then the span as one token joined by single spaces |
| Tokenizer.DocExample | tokenizer.py:26-28 | the module's worked example `This is a string         with quotes around part" and some more quoted text"` gives the eight words up to `part`, then `and some more quoted text` |
| Text.SplitGap | tokenizer.py:6 | `split()` treats a run of whitespace of any length as one separator: the words of the text before it followed by the words after it |
| Jarvis.Classify | jarvis.py:177-190 | an event is handled exactly when it has text and a sender other than the bot; the handled message keeps the event's channel and sender, and is active exactly when the bot's id occurs in the text |
| Jarvis.SkippedEvents | jarvis.py:177-180 | events without text or sender, and the bot's own messages, are not processed |
| Jarvis.MentionIsActive | jarvis.py:187-188 | a message mentioning `<@bot>` is active |
| Jarvis.NoSlashInTokens | jarvis.py:184 | no token handed to the plugins contains `/` |
| Jarvis.Enabled | jarvis.py:106 | each enabled plugin is installed and its name occurs in the setting, every installed plugin whose name occurs there is enabled, and there are no more enabled plugins than installed ones |
| Jarvis.EnabledMembers | jarvis.py:101-106 | a plugin is enabled exactly when it is installed and its name is a substring of the setting |
| Jarvis.EnabledAppend | jarvis.py:106 | enabling keeps the load order |
| Jarvis.DefaultEnablesAll | jarvis.py:101-104 | the default setting enables `sql_status`, `jira` and `pagerduty` |
| Jarvis.FirstFiring | jarvis.py:118-124 | the first plugin to fire is an index into the plugins |
| Jarvis.FirstFiringAt | jarvis.py:118-139 | when plugin `i` fires and none before it does, the loop stops at `i` |
| Jarvis.NoFiring | jarvis.py:118-124 | when no plugin fires, the loop runs to the end |
| Jarvis.HelpText | jarvis.py:106-115 | in help mode, the loop appends `\r\r` and each enabled plugin's purpose to the response |
| Jarvis.PurposesListed | jarvis.py:113-114 | every enabled plugin's purpose is in the help text, whatever its type |
| Jarvis.HelpAnswer | jarvis.py:93-153 | help (last token `help`, active) runs no plugin and sends one message, to the original channel, containing every enabled plugin's purpose |
| Jarvis.Search | jarvis.py:106-153 | outside help mode, the loop runs the plugins of the message's type in order until one matches, then replies to it, or falls back; the trace is `Outcome` |
| Jarvis.Reply | jarvis.py:124-153 | the reply to a matching result: `<@user>: ` and the output, to `@user` when `direct` is present; a file is uploaded once with the reply as comment and then removed, whether or not the upload raised, and the reply is sent only when it did not; a result without `output` raises |
| Jarvis.ReplyTrace | jarvis.py:124-153 | the plugins run are kept; the call raises exactly when the result has no output; with a file the removal is always recorded (two actions when the upload raises, three otherwise); the last action is a send exactly when there is output and no upload raised |
| Jarvis.FallbackTrace | jarvis.py:143-151 | the plugins run are kept; the call raises exactly when the message is active and the joke cannot be fetched; there is at most one action, present exactly when the message is active and the joke was fetched |
| Jarvis.Fallback | jarvis.py:143-151 | no match: a passive message gets nothing; an active one gets the apology and the joke, without a mention prefix; a failed joke fetch raises |
| Jarvis.Dispatch | jarvis.py:86-153 | the whole of `process_message` after the address lookup is `Expected`: an empty token list raises at line 93, help mode answers help, otherwise `Search` |
| Jarvis.ProcessMessage | jarvis.py:82-153 | the address is looked up through the cache (and stored on a miss), then the message is dispatched with it |
| Jarvis.OnMessage | jarvis.py:177-193 | a skipped event changes nothing; a classified one is processed with its channel, sender, tokens and kind |
| Jarvis.RunNamesOfKind | jarvis.py:118-119 | each name recorded as run is that of a plugin of the message's type |
| Jarvis.OutcomeRunsOfKind | jarvis.py:106-139 | every plugin whose `run` is called by the loop has the message's type |
| Jarvis.RunOnlyMatchingType | jarvis.py:106-119 | only enabled plugins of the message's type are ever run |
| Jarvis.MatchAnswer | jarvis.py:118-153 | with a match, the matching plugin is the last one run; without output it raises and does nothing; with a file, the actions are exactly the upload with the reply as comment, the removal, and then the send unless the upload raised; without a file, exactly one send; replies go to `@user` when `direct` is present |
| Jarvis.NoMatchAnswer | jarvis.py:143-151 | with no match, a passive message gets no action; an active one gets exactly one send of the apology and the joke to the channel, or raises when the joke cannot be fetched |
| UserCache.LastEmail | jarvis.py:66-68 | the roster scan finds an address exactly when some member has the id |
| UserCache.LastEmailIsLast | jarvis.py:66-68 | the address found is that of the last member with the id |
| UserCache.Lookup | jarvis.py:53-78 | a hit returns the stored address; any address returned is stored for the user or belongs to a roster member with that id |
| UserCache.Stored | jarvis.py:70-71 | no stored entry is changed or removed, only the user's entry can be added, and it is added exactly when `Lookup` finds an address, which is then its value |
| UserCache.UserTable.constructor | jarvis.py:30-38 | opening the table keeps what earlier runs stored in `userdata.db`: it starts as the stored map, empty only on a first run |
| UserCache.UserTable.GetUserDetails | jarvis.py:53-78 | returns `Lookup` of the old table and stores `Stored`: a hit answers from the table; a miss scans the roster and stores a found address |
| UserCache.HitIgnoresRoster | jarvis.py:58-62 | a hit returns the stored address whatever the roster, and stores nothing |
| UserCache.SecondCallHits | jarvis.py:58-73 | once an address is returned, the next call for that user is answered from the table, even when the roster cannot be read |
| UserCache.MissTakesLastMember | jarvis.py:64-73 | a miss that returns an address takes it from the last roster member with that id, and stores exactly that pair |
| UserCache.MissWithoutAddress | jarvis.py:64-75 | a miss with no member of that id, or one whose member has no address, returns nothing and stores nothing |
| UserCache.OthersUnchanged | jarvis.py:70-71 | entries for other users are never touched |
| PagerDuty.PatternScore | plugins/pagerduty/__init__.py:34-40 | the nested loops count the (pattern word, normalized token) pairs that agree, `Score` |
| PagerDuty.SelectCommand | plugins/pagerduty/__init__.py:29-45 | `matched` is whether some pattern matches, and the branch is `Branch` |
| PagerDuty.HighestMatch | plugins/pagerduty/__init__.py:29-45 | the branch is the highest-numbered matching pattern, with no later pattern matching, or 0 when none matches |
| PagerDuty.UnmatchedLists | plugins/pagerduty/__init__.py:29-49 | when no pattern matches, the on-call branch still runs |
| PagerDuty.ThresholdIsHalf | plugins/pagerduty/__init__.py:33-43 | `score > len/2` is `2 * score > len` |
| PagerDuty.OccurrencesAppend | plugins/pagerduty/__init__.py:37-40 | counts add up over the tokens |
| PagerDuty.ScoreAppend | plugins/pagerduty/__init__.py:36-40 | scores add up over the tokens: every occurrence counts, wherever it is |
| PagerDuty.ScoreSnoc | plugins/pagerduty/__init__.py:36-40 | a pattern's score is the sum of its words' counts |
| PagerDuty.OccurrencesPositive | plugins/pagerduty/__init__.py:37-40 | a token that normalizes to the pattern word is counted |
| PagerDuty.OccurrencesAbsent | plugins/pagerduty/__init__.py:37-40 | a word no token normalizes to counts 0 |
| PagerDuty.OccurrencesOnce | plugins/pagerduty/__init__.py:37-40 | a word exactly one token normalizes to counts 1 |
| PagerDuty.OccurrencesEvery | plugins/pagerduty/__init__.py:37-40 | repeated tokens count repeatedly |
| PagerDuty.AllWordsScore | plugins/pagerduty/__init__.py:36-40 | a message with every word of a pattern scores at least the pattern's length |
| PagerDuty.AllWordsMatch | plugins/pagerduty/__init__.py:32-43 | a message with every word of a pattern, in any order, case or hyphenation, matches it |
| PagerDuty.Normalize | plugins/pagerduty/__init__.py:37-39 | a normalized token contains no apostrophe and no hyphen |
| PagerDuty.NormalizeChars | plugins/pagerduty/__init__.py:37-39 | normalizing adds no character: each one comes from the lowercased token |
| PagerDuty.NormalizeSplices | plugins/pagerduty/__init__.py:37-39 | normalizing deletes an apostrophe or hyphen between two parts |
| PagerDuty.NormalizeLowerWord | plugins/pagerduty/__init__.py:37-39 | a lower-case word normalizes to itself |
| PagerDuty.NormalizeCapitalized | plugins/pagerduty/__init__.py:37-39 | a capitalized word normalizes to its lower-case form |
| PagerDuty.ApostropheDropped | plugins/pagerduty/__init__.py:37-39 | `Who's` scores as `whos` |
| PagerDuty.HyphenJoins | plugins/pagerduty/__init__.py:38-39 | `on-call` becomes `oncall`, which is neither `on` nor `call` |
| PagerDuty.RepeatedOn | plugins/pagerduty/__init__.py:32-43 | `on on on` matches pattern 0 |
| PagerDuty.WhoIsOnCallFirst | plugins/pagerduty/__init__.py:14-40 | `who is on call` scores 3 on pattern 0 |
| PagerDuty.WhoIsOnCallSecond | plugins/pagerduty/__init__.py:14-40 | `who is on call` scores 2 on pattern 1, which is not enough |
| PagerDuty.PagerWordsAbsent | plugins/pagerduty/__init__.py:14-40 | a message without `give`, `pager` or `me` scores 0 on pattern 2 |
| PagerDuty.WhoIsOnCallBranch | plugins/pagerduty/__init__.py:32-45 | `Who is on call` selects branch 0 |
| PagerDuty.WhoIsOnCallTokens | plugins/pagerduty/__init__.py:9 | four tokens spelled `Who`, `is`, `on`, `call` normalize to `who is on call` |
| PagerDuty.WhoIsOnCallAsked | plugins/pagerduty/__init__.py:9-45 | the typed text `Who is on call?` from the help text tokenizes to `who is on call` once normalized, and selects branch 0 |
| PagerDuty.NextShiftCounts | plugins/pagerduty/__init__.py:37-40 | in `when am i on call next` each word of pattern 1 occurs once |
| PagerDuty.NextShiftSecond | plugins/pagerduty/__init__.py:14-40 | `when am i on call next` scores 5 on pattern 1 |
| PagerDuty.NextShiftBranch | plugins/pagerduty/__init__.py:32-45 | `When am I on call next` selects branch 1 |
| PagerDuty.NextShiftTokens | plugins/pagerduty/__init__.py:9 | six tokens spelled `When`, `am`, `I`, `on`, `call`, `next` normalize to `when am i on call next` |
| PagerDuty.NextShiftLayout | plugins/pagerduty/__init__.py:9 | `When am I on call next?` is those six plain words separated by single spaces, and a `?` |
| PagerDuty.NextShiftAsked | plugins/pagerduty/__init__.py:9-45 | the typed text `When am I on call next?` tokenizes to `when am i on call next` once normalized, and selects branch 1 |
| PagerDuty.PagerBranch | plugins/pagerduty/__init__.py:32-45 | `give me the pager` selects branch 2 |
| PagerDuty.PagerTokens | plugins/pagerduty/__init__.py:9 | four tokens spelled `give`, `me`, `the`, `pager` normalize to themselves |
| PagerDuty.PagerAsked | plugins/pagerduty/__init__.py:9-45 | the typed text `give me the pager` tokenizes to those four words, and selects branch 2 |
| PagerDuty.ListOnCall | plugins/pagerduty/__init__.py:62-68 | the listing loop builds `Listing` of the records |
| PagerDuty.ListingIsScheduledLines | plugins/pagerduty/__init__.py:62-68 | the listing is one `*user* (team)\r` line per record with a non-null `start`, in record order |
| PagerDuty.ListingAnswer | plugins/pagerduty/__init__.py:50-68 | the on-call answer is the header followed by those lines |
| PagerDuty.Run | plugins/pagerduty/__init__.py:12-145 | `matched` is 1 exactly when some pattern matches; the output is the chosen branch's answer, or the state it was in when a request failed (header only, or empty for the override); no `direct` or `file` |
| SqlStatus.Lowered | plugins/sql_status/__init__.py:45 | the tokens keep their number, order and lengths; every character is lowered on its own, and no ASCII capital is left |
| SqlStatus.TriggeredAnyCase | plugins/sql_status/__init__.py:44-46 | the command fires exactly when some token spells `status` in any mix of upper and lower case |
| SqlStatus.LastServer | plugins/sql_status/__init__.py:50-63 | a server is found exactly when some candidate fits the pattern, and it is the last such candidate |
| SqlStatus.Run | plugins/sql_status/__init__.py:10-79 | a script file that cannot be read gives exactly `{matched: 0}` before the message is looked at; otherwise the result is that of `Respond` |
| SqlStatus.Respond | plugins/sql_status/__init__.py:43-79 | with `status` present (once, in any case) and a server found, the result is the last row's status line for the last server, no output when there are no rows, or the apology with the error, matched in every case; otherwise exactly `{matched: 0}` |
| SqlStatus.LinkTargetIsLabel | plugins/sql_status/__init__.py:52-55 | a token with exactly one bar is matched against the pattern by its part after the bar |
| SqlStatus.LinkTargetManyBars | plugins/sql_status/__init__.py:52-55 | a token with two or more bars is matched against the pattern whole |
| SqlStatus.CaNameAccepted | plugins/sql_status/__init__.py:18 | the default pattern accepts two name characters, `-`, three characters, `-` and a digit |
| SqlStatus.LongPrefixRefused | plugins/sql_status/__init__.py:18 | the default pattern refuses a token that starts with four name characters, the first a letter (so `server-102`) |
| SqlStatus.DefaultServerPattern | plugins/sql_status/__init__.py:18 | a candidate the default pattern accepts is at least four characters long and contains `-` or `.` |
| Jira.RunFrom | plugins/jira/__init__.py:15 | a character run stays inside the token |
| Jira.RunIsMaximal | plugins/jira/__init__.py:15 | the run measured is a maximal stretch of the class |
| Jira.IssueKeyIffShape | plugins/jira/__init__.py:36-41 | a token yields a key exactly when it starts with 1-7 letters, `-`, at least two digits and one more word character |
| Jira.IssueKey | plugins/jira/__init__.py:36-47 | a key found is a prefix of the lowercased token, at least five characters long, containing `-` |
| Jira.IssueKeyIsWholeMatch | plugins/jira/__init__.py:47 | the key is the matched prefix of the lowercased token, running to the end of the word |
| Jira.KeyParts | plugins/jira/__init__.py:15 | the match splits into 1-7 letters, `-`, a group of 2-6 digits and one or more word characters (which may themselves be digits or letters), and stops at a non-word character or the end |
| Jira.KeyExample | plugins/jira/__init__.py:15 | `abc-123` and `abc-12x` are keys, whole |
| Jira.TwoDigitsAloneRefused | plugins/jira/__init__.py:15 | `abc-12` carries no key |
| Jira.Truncate | plugins/jira/__init__.py:50-56 | a description of 253 characters or more becomes its first `min(len, 256)` characters and `...`; a shorter one is kept; a missing one reads `N/A` |
| Jira.TruncateBound | plugins/jira/__init__.py:50-54 | a truncated description is at most 259 characters and keeps at least `min(len, 256)` |
| Jira.Run | plugins/jira/__init__.py:13-74 | the loop's `matched` and `output` are `Scan` of the tokens |
| Jira.ScanUnkeyedTail | plugins/jira/__init__.py:36-41 | tokens after the last key leave the result alone |
| Jira.NoKeyNoMatch | plugins/jira/__init__.py:18-41 | a message without a key gives exactly `{matched: 0}` |
| Jira.StepOnKey | plugins/jira/__init__.py:41-73 | a key-bearing token sets `matched` to 1 exactly when its issue is found and fully reported, and then writes its report |
| Jira.Step | plugins/jira/__init__.py:36-73 | a token without a key changes nothing; a key whose lookup fails clears `matched` and keeps the output; a found issue always leaves an output |
| Jira.LastKeyDecides | plugins/jira/__init__.py:36-73 | the final `matched` is 1 exactly when the last key-bearing token's issue is reported in full, a later failure undoing an earlier success, and the output is then that issue's report |
| Jira.OutputNamesIssue | plugins/jira/__init__.py:59 | a found issue's output starts with `*JIRA Issue: *`, the url, `/browse/` and the key |

## Left out

- Slack I/O is not modelled: the connection, polling, `rtm_read`, sleeping and the bot-id lookup (`bot_user` is a parameter). Each message runs on its own thread, and that concurrency is not modelled either. One event is modelled by `Jarvis.OnMessage`.
- SQLite is not modelled: connecting, committing, closing and the SQL text. The `SlackUsers` table is a map, so `fetchone` is the map lookup. That is right for messages handled one after another: a miss stores the address, and the next call for that user hits. The table has no key or uniqueness constraint (jarvis.py:31-36), and each message runs on its own thread (jarvis.py:193-194). So two messages from a new user that arrive together can both miss and both insert a row, and `fetchone` then returns one of the two. The map model does not capture duplicate rows or which one is returned.
- `get_user_details` catches every exception. The model names two: a roster that cannot be read, and a matching member without an address. An address-less member is modelled even when a later member has one, since reading it raises first. A miss with no matching member returns `None` through the unbound `user_email`.
- The joke request and its `.encode('utf-8')` are one optional string. Under Python 3 the source formats bytes as `b'...'`. The model uses the joke text as given.
- `pluginloader` is not modelled. Plugins are a given sequence of records in load order, and `run` is a function of the tokens, the sender and the address.
- Missing environment variables are not modelled (`SLACK_TOKEN`, `PD_API_KEY`, `DB_*`, `JIRA_*`). The `except IOError` blocks cannot catch the `KeyError` they would raise. The model takes configuration as parameters.
- PagerDuty's HTTP requests, the override POST and all date and time-zone formatting are not modelled. `Service` gives the outcome of each branch as an already formatted string, or `None` when a step raised.
- The regex engine is not modelled. `SqlStatus.Run` takes the server pattern as a predicate (the `SQL_REGEX` setting). The built-in default is written out as `SqlStatus.DefaultServerPattern` over ASCII. The JIRA key pattern is encoded over ASCII classes. Python's Unicode `\w`, `\d` and IGNORECASE rules are not modelled.
- `pymssql`, the JIRA client, date parsing and `str()` of issue fields are not modelled. They are a `Query` outcome and a `Lookup` of already printable fields. Whether the SQL script file can be opened is the `scriptLoads` flag of `SqlStatus.Run`; its contents are part of the `Query` outcome.
- `lower()` is ASCII only. Python's Unicode case mapping is not modelled. Whitespace for `split()` is Unicode `isspace`, by code point.
- Jarvis.Dispatch: the plugin loop is written as two methods, `HelpText` and `Search`. They are the loop's two modes, because `is_help` is fixed before the loop starts.
- Jarvis.ReplyTrace: a result file that cannot be opened raises inside the same `try` as the upload. The model does not tell the two apart: the trace records the upload call, then the removal, and no send.
- Jarvis.Classify: `bot_user` is unbound when no roster member has the bot's name, and every message would then raise. That case is not modelled.
