/**
  The quote-aware tokenizer (`tokenize` in tokenizer.py).

  Every `"` is first padded with spaces so that it becomes a word of its own
  and every `?` is deleted; the text is then split on whitespace.  A flag
  records whether a `"` has been seen, and a buffer collects words: before
  the first `"` each word is a token; the first `"` sets the flag (which is
  never cleared again); every later `"` emits the words buffered since the
  previous `"`, joined by single spaces, as one token.  Words still buffered
  at the end are emitted one by one.
*/
module Tokenizer {
  import opened Text

  const Quote: string := "\""

  /** `user_string.replace('"', ' " ').replace('?', '')` */
  function Prepare(text: string): string {
    RemoveChar(ReplaceChar(text, '"', " \" "), '?')
  }

  /** The words the tokenizer's loop visits. */
  function Words(text: string): seq<string> {
    Split(Prepare(text))
  }

  /** `[str(c).replace('"', '') for c in buffer if c != '"']` */
  function Unquoted(buffer: seq<string>): seq<string> {
    if buffer == [] then []
    else
      var w := buffer[|buffer| - 1];
      Unquoted(buffer[..|buffer| - 1]) + (if w != Quote then [RemoveChar(w, '"')] else [])
  }

  /** Dropping the `"` words and the quotes in the others leaves at most as
      many words as were buffered, none with a `"` in it. */
  lemma {:induction false} UnquotedShape(buffer: seq<string>)
    ensures |Unquoted(buffer)| <= |buffer|
    ensures forall t <- Unquoted(buffer) :: '"' !in t
    decreases |buffer|
  {
    if buffer != [] {
      var w := buffer[|buffer| - 1];
      UnquotedShape(buffer[..|buffer| - 1]);
      RemoveCharChars(w, '"');
    }
  }

  /** The loop's variables: `result`, `is_in_quote` and `temp_string`. */
  datatype Scan = Scan(result: seq<string>, inQuote: bool, buffer: seq<string>)

  /** One turn of the loop, on word `w`: a word with a `"` sets the flag for
      good, tokens are only ever appended (at most one per word), and before
      the first `"` the buffer is left alone. */
  function Step(st: Scan, w: string): (r: Scan)
    ensures r.inQuote == (st.inQuote || '"' in w)
    ensures st.result <= r.result && |r.result| <= |st.result| + 1
    ensures !r.inQuote ==> r.buffer == st.buffer
  {
    if '"' in w then
      var buffer := st.buffer + [w];
      if st.inQuote then Scan(st.result + [Join(Unquoted(buffer))], true, [])
      else Scan(st.result, true, buffer)
    else if st.inQuote then Scan(st.result, true, st.buffer + [w])
    else Scan(st.result + [w], false, st.buffer)
  }

  /** The loop's state after visiting `words` in order. */
  function Run(words: seq<string>): Scan {
    if words == [] then Scan([], false, [])
    else Step(Run(words[..|words| - 1]), words[|words| - 1])
  }

  /** The final flush: leftover buffered words become separate tokens, each
      stripped of its quotes; the tokens already made are kept in front. */
  function Flush(st: Scan): (tokens: seq<string>)
    ensures st.result <= tokens
    ensures |tokens| <= |st.result| + |st.buffer|
    ensures forall k | |st.result| <= k < |tokens| :: '"' !in tokens[k]
  {
    UnquotedShape(st.buffer);
    if |st.buffer| > 0 then st.result + Unquoted(st.buffer) else st.result
  }

  /** What `tokenize(text)` returns. */
  function TokensOf(text: string): seq<string> {
    Flush(Run(Words(text)))
  }

  /** `tokenize` itself: the loop over the words, then the flush loop. */
  method Tokenize(text: string) returns (tokens: seq<string>)
    ensures tokens == TokensOf(text)
  {
    var result: seq<string> := [];
    var inQuote := false;
    var temp: seq<string> := [];
    var words := Words(text);
    for i := 0 to |words|
      invariant Scan(result, inQuote, temp) == Run(words[..i])
    {
      var s := words[i];
      assert words[..i + 1][..i] == words[..i];
      if '"' in s {
        temp := temp + [s];
        if inQuote {
          result := result + [Join(Unquoted(temp))];
          temp := [];
        } else {
          inQuote := true;
        }
      } else {
        if inQuote {
          temp := temp + [s];
        } else {
          result := result + [s];
        }
      }
    }
    assert words[..|words|] == words;
    if |temp| > 0 {
      var rest := Unquoted(temp);
      ghost var before := result;
      for j := 0 to |rest|
        invariant result == before + rest[..j]
      {
        result := result + [rest[j]];
      }
      assert rest[..|rest|] == rest;
    }
    tokens := result;
  }

  // ---------------------------------------------------------------------
  // The shape of the words

  /** A word of the prepared text is a lone `"` or carries neither `"` nor `?`. */
  predicate Clean(w: string) {
    '"' !in w && '?' !in w
  }

  predicate Shaped(w: string) {
    IsWord(w) && (w == Quote || Clean(w))
  }

  /** The characters of the text without `?` and with `"` turned into a space. */
  function Blank(text: string): string {
    RemoveChar(ReplaceChar(text, '"', " "), '?')
  }

  lemma PrepareCons(c: char, s: string)
    ensures Prepare([c] + s)
         == (if c == '"' then " \" " else if c == '?' then [] else [c]) + Prepare(s)
    ensures Blank([c] + s)
         == (if c == '"' then " " else if c == '?' then [] else [c]) + Blank(s)
  {
    ReplaceCharAppend([c], s, '"', " \" ");
    ReplaceCharAppend([c], s, '"', " ");
    assert ReplaceChar([c], '"', " \" ") == (if c == '"' then " \" " else [c]) by {
      assert [c][1..] == [];
    }
    assert ReplaceChar([c], '"', " ") == (if c == '"' then " " else [c]) by {
      assert [c][1..] == [];
    }
    ReplaceCharAppend(ReplaceChar([c], '"', " \" "), ReplaceChar(s, '"', " \" "), '?', []);
    ReplaceCharAppend(ReplaceChar([c], '"', " "), ReplaceChar(s, '"', " "), '?', []);
    if c == '"' {
      assert RemoveChar(" \" ", '?') == " \" " by {
        ReplaceCharAbsent(" \" ", '?', []);
      }
      assert RemoveChar(" ", '?') == " " by {
        ReplaceCharAbsent(" ", '?', []);
      }
    } else {
      assert [c][1..] == [];
    }
  }

  lemma SplitFromQuote(s: string, cur: string)
    ensures SplitFrom(" \" " + s, cur) == Emit(cur) + [Quote] + SplitFrom(s, [])
  {
    assert " \" " + s == [' '] + (['"'] + ([' '] + s));
    assert IsSpace(' ') && !IsSpace('"');
    SplitFromCons(' ', ['"'] + ([' '] + s), cur);
    SplitFromCons('"', [' '] + s, []);
    assert [] + ['"'] == Quote;
    SplitFromCons(' ', s, Quote);
  }

  /** Every word the loop visits is shaped. */
  lemma {:induction false} PreparedWordsShaped(s: string, cur: string)
    requires NoSpace(cur) && Clean(cur)
    ensures forall w <- SplitFrom(Prepare(s), cur) :: Shaped(w)
    decreases |s|
  {
    SplitFromWords(Prepare(s), cur);
    if s == [] {
    } else {
      var c, rest := s[0], s[1..];
      assert s == [c] + rest;
      PrepareCons(c, rest);
      if c == '"' {
        SplitFromQuote(Prepare(rest), cur);
        PreparedWordsShaped(rest, []);
      } else if c == '?' {
        assert Prepare(s) == Prepare(rest);
        PreparedWordsShaped(rest, cur);
      } else {
        SplitFromCons(c, Prepare(rest), cur);
        if IsSpace(c) {
          PreparedWordsShaped(rest, []);
        } else {
          PreparedWordsShaped(rest, cur + [c]);
        }
      }
    }
  }

  lemma WordsShaped(text: string)
    ensures forall w <- Words(text) :: Shaped(w)
  {
    PreparedWordsShaped(text, []);
  }

  // ---------------------------------------------------------------------
  // Unquoted and the concatenated re-split of the tokens

  lemma {:induction false} UnquotedAppend(a: seq<string>, b: seq<string>)
    ensures Unquoted(a + b) == Unquoted(a) + Unquoted(b)
    decreases |b|
  {
    if b == [] {
      assert a + b == a;
    } else {
      var b' := b[..|b| - 1];
      assert (a + b)[..|a + b| - 1] == a + b';
      UnquotedAppend(a, b');
    }
  }

  lemma UnquotedClean(w: string)
    requires Clean(w)
    ensures Unquoted([w]) == [w]
  {
    ReplaceCharAbsent(w, '"', []);
    assert [w][..0] == [];
  }

  lemma UnquotedQuote()
    ensures Unquoted([Quote]) == []
  {
    assert [Quote][..0] == [];
  }

  /** Of shaped words, `Unquoted` keeps exactly the clean ones, unchanged. */
  lemma {:induction false} UnquotedShaped(ws: seq<string>)
    requires forall w <- ws :: Shaped(w)
    ensures forall w <- Unquoted(ws) :: Shaped(w) && Clean(w)
    decreases |ws|
  {
    if ws != [] {
      var init, w := ws[..|ws| - 1], ws[|ws| - 1];
      assert ws == init + [w];
      assert w in ws;
      assert forall v <- init :: v in ws;
      UnquotedShaped(init);
      if w == Quote { UnquotedQuote(); } else { UnquotedClean(w); }
      UnquotedAppend(init, [w]);
    }
  }

  /** Splitting every token on whitespace and concatenating the pieces. */
  function SplitAll(tokens: seq<string>): seq<string> {
    if tokens == [] then []
    else SplitAll(tokens[..|tokens| - 1]) + Split(tokens[|tokens| - 1])
  }

  lemma {:induction false} SplitAllAppend(a: seq<string>, b: seq<string>)
    ensures SplitAll(a + b) == SplitAll(a) + SplitAll(b)
    decreases |b|
  {
    if b == [] {
      assert a + b == a;
    } else {
      var b' := b[..|b| - 1];
      assert (a + b)[..|a + b| - 1] == a + b';
      SplitAllAppend(a, b');
    }
  }

  lemma {:induction false} SplitAllWords(ws: seq<string>)
    requires forall w <- ws :: IsWord(w)
    ensures SplitAll(ws) == ws
    decreases |ws|
  {
    if ws != [] {
      var init := ws[..|ws| - 1];
      assert ws[|ws| - 1] in ws;
      SplitWord(ws[|ws| - 1]);
      SplitAllWords(init);
    }
  }

  /** Dropping the `"` words of the prepared text is splitting the blanked text. */
  lemma {:induction false} UnquotedPrepared(s: string, cur: string)
    requires NoSpace(cur) && Clean(cur)
    ensures Unquoted(SplitFrom(Prepare(s), cur)) == SplitFrom(Blank(s), cur)
    decreases |s|
  {
    if s == [] {
      if cur != [] { UnquotedClean(cur); }
    } else {
      var c, rest := s[0], s[1..];
      assert s == [c] + rest;
      if c == '"' {
        UnquotedPrepared(rest, []);
        UnquotedPreparedQuote(rest, cur);
      } else if c == '?' {
        PrepareCons(c, rest);
        assert Prepare(s) == Prepare(rest) && Blank(s) == Blank(rest);
        UnquotedPrepared(rest, cur);
      } else if IsSpace(c) {
        UnquotedPrepared(rest, []);
        UnquotedPreparedSpace(c, rest, cur);
      } else {
        UnquotedPrepared(rest, cur + [c]);
        PrepareCons(c, rest);
        SplitFromCons(c, Prepare(rest), cur);
        SplitFromCons(c, Blank(rest), cur);
      }
    }
  }

  /** The step of `UnquotedPrepared` over a leading `"`. */
  lemma UnquotedPreparedQuote(rest: string, cur: string)
    requires NoSpace(cur) && Clean(cur)
    requires Unquoted(SplitFrom(Prepare(rest), [])) == SplitFrom(Blank(rest), [])
    ensures Unquoted(SplitFrom(Prepare(['"'] + rest), cur)) == SplitFrom(Blank(['"'] + rest), cur)
  {
    PrepareCons('"', rest);
    SplitFromQuote(Prepare(rest), cur);
    SplitFromCons(' ', Blank(rest), cur);
    UnquotedAppend(Emit(cur) + [Quote], SplitFrom(Prepare(rest), []));
    UnquotedAppend(Emit(cur), [Quote]);
    UnquotedQuote();
    if cur != [] { UnquotedClean(cur); }
  }

  /** The step of `UnquotedPrepared` over a leading separator. */
  lemma UnquotedPreparedSpace(c: char, rest: string, cur: string)
    requires IsSpace(c) && NoSpace(cur) && Clean(cur)
    requires Unquoted(SplitFrom(Prepare(rest), [])) == SplitFrom(Blank(rest), [])
    ensures Unquoted(SplitFrom(Prepare([c] + rest), cur)) == SplitFrom(Blank([c] + rest), cur)
  {
    assert c != '"' && c != '?';
    PrepareCons(c, rest);
    SplitFromCons(c, Prepare(rest), cur);
    SplitFromCons(c, Blank(rest), cur);
    UnquotedAppend(Emit(cur), SplitFrom(Prepare(rest), []));
    if cur != [] { UnquotedClean(cur); }
  }

  // ---------------------------------------------------------------------
  // The loop's invariant

  /** The state the loop keeps, over shaped words. */
  ghost predicate Consistent(words: seq<string>, st: Scan) {
    && (forall t <- st.result :: Clean(t))
    && (forall w <- st.buffer :: Shaped(w))
    && (!st.inQuote ==> st.buffer == [])
    && SplitAll(st.result) + Unquoted(st.buffer) == Unquoted(words)
  }

  /** One turn of the loop keeps the state consistent. */
  lemma StepConsistent(words: seq<string>, st: Scan, w: string)
    requires Consistent(words, st) && Shaped(w)
    ensures Consistent(words + [w], Step(st, w))
  {
    if w == Quote {
      StepQuoteConsistent(words, st);
    } else {
      StepWordConsistent(words, st, w);
    }
  }

  lemma StepQuoteConsistent(words: seq<string>, st: Scan)
    requires Consistent(words, st)
    ensures Consistent(words + [Quote], Step(st, Quote))
  {
    if st.inQuote {
      QuoteClosesConsistent(words, st);
    } else {
      QuoteOpensConsistent(words, st);
    }
  }

  lemma QuoteClosesConsistent(words: seq<string>, st: Scan)
    requires Consistent(words, st) && st.inQuote
    ensures Consistent(words + [Quote], Step(st, Quote))
  {
    assert '"' in Quote by { assert Quote[0] == '"'; }
    UnquotedAppend(words, [Quote]);
    UnquotedQuote();
    UnquotedAppend(st.buffer, [Quote]);
    QuoteClosesSpan(st);
    var joined := Join(Unquoted(st.buffer + [Quote]));
    assert Step(st, Quote) == Scan(st.result + [joined], true, []);
    assert forall t <- st.result + [joined] :: t in st.result || t == joined;
  }

  lemma QuoteOpensConsistent(words: seq<string>, st: Scan)
    requires Consistent(words, st) && !st.inQuote
    ensures Consistent(words + [Quote], Step(st, Quote))
  {
    assert '"' in Quote by { assert Quote[0] == '"'; }
    var next := Scan(st.result, true, st.buffer + [Quote]);
    assert Step(st, Quote) == next;
    assert forall w <- next.buffer :: Shaped(w) by {
      assert forall t <- st.buffer + [Quote] :: t in st.buffer || t == Quote;
    }
    assert Unquoted(words + [Quote]) == Unquoted(words) by {
      UnquotedAppend(words, [Quote]);
      UnquotedQuote();
    }
    assert Unquoted(next.buffer) == Unquoted(st.buffer) by {
      UnquotedAppend(st.buffer, [Quote]);
      UnquotedQuote();
    }
  }

  lemma StepWordConsistent(words: seq<string>, st: Scan, w: string)
    requires Consistent(words, st) && IsWord(w) && Clean(w)
    ensures Consistent(words + [w], Step(st, w))
  {
    if st.inQuote {
      BufferWord(words, st, w);
    } else {
      EmitWord(words, st, w);
    }
  }

  lemma BufferWord(words: seq<string>, st: Scan, w: string)
    requires Consistent(words, st) && IsWord(w) && Clean(w) && st.inQuote
    ensures Consistent(words + [w], Step(st, w))
  {
    var st' := Scan(st.result, true, st.buffer + [w]);
    assert Step(st, w) == st';
    assert Unquoted(words + [w]) == Unquoted(words) + [w] by {
      UnquotedAppend(words, [w]);
      UnquotedClean(w);
    }
    assert Unquoted(st'.buffer) == Unquoted(st.buffer) + [w] by {
      UnquotedAppend(st.buffer, [w]);
      UnquotedClean(w);
    }
    assert forall t <- st'.buffer :: Shaped(t) by {
      assert forall t <- st'.buffer :: t in st.buffer || t == w;
    }
  }

  lemma EmitWord(words: seq<string>, st: Scan, w: string)
    requires Consistent(words, st) && IsWord(w) && Clean(w) && !st.inQuote
    ensures Consistent(words + [w], Step(st, w))
  {
    var st' := Scan(st.result + [w], false, []);
    assert Step(st, w) == st';
    assert Unquoted(words + [w]) == Unquoted(words) + [w] by {
      UnquotedAppend(words, [w]);
      UnquotedClean(w);
    }
    assert SplitAll(st'.result) == SplitAll(st.result) + [w] by {
      WordExtendsResult(st.result, w);
    }
    assert forall t <- st'.result :: Clean(t) by {
      assert forall t <- st'.result :: t in st.result || t == w;
    }
  }

  lemma WordExtendsResult(result: seq<string>, w: string)
    requires IsWord(w)
    ensures SplitAll(result + [w]) == SplitAll(result) + [w]
  {
    assert (result + [w])[..|result|] == result;
    SplitWord(w);
  }

  /** A closing `"` turns the buffered words into one clean token that
      re-splits into exactly those words. */
  lemma QuoteClosesSpan(st: Scan)
    requires forall w <- st.buffer :: Shaped(w)
    ensures var joined := Join(Unquoted(st.buffer + [Quote]));
      Clean(joined) && SplitAll(st.result + [joined]) == SplitAll(st.result) + Unquoted(st.buffer)
  {
    UnquotedAppend(st.buffer, [Quote]);
    UnquotedQuote();
    var words := Unquoted(st.buffer);
    assert Unquoted(st.buffer + [Quote]) == words;
    var joined := Join(words);
    UnquotedShaped(st.buffer);
    SplitJoin(words);
    JoinChars(words);
    forall ch <- joined ensures ch != '"' && ch != '?' {
      if ch != ' ' {
        var u :| u in words && ch in u;
        assert Clean(u);
      }
    }
    assert (st.result + [joined])[..|st.result|] == st.result;
  }

  lemma {:induction false} RunConsistent(words: seq<string>)
    requires forall w <- words :: Shaped(w)
    ensures Consistent(words, Run(words))
    decreases |words|
  {
    if words != [] {
      var init, w := words[..|words| - 1], words[|words| - 1];
      assert words == init + [w];
      assert w in words;
      assert forall v <- init :: v in words;
      RunConsistent(init);
      StepConsistent(init, Run(init), w);
    }
  }

  // ---------------------------------------------------------------------
  // What tokenize promises

  /** No token contains `?` or `"`. */
  lemma TokensClean(text: string)
    ensures forall t <- TokensOf(text) :: '"' !in t && '?' !in t
  {
    var words := Words(text);
    WordsShaped(text);
    RunConsistent(words);
    var st := Run(words);
    UnquotedShaped(st.buffer);
  }

  /** Order and content are kept: re-splitting the tokens and concatenating
      gives the words of the input once `?` is deleted and `"` is a space. */
  lemma TokensKeepWords(text: string)
    ensures SplitAll(TokensOf(text)) == Split(Blank(text))
  {
    var words := Words(text);
    WordsShaped(text);
    RunConsistent(words);
    var st := Run(words);
    UnquotedShaped(st.buffer);
    SplitAllAppend(st.result, Unquoted(st.buffer));
    SplitAllWords(Unquoted(st.buffer));
    UnquotedPrepared(text, []);
  }

  /** Each token's words are among the words of all tokens. */
  lemma {:induction false} SplitAllCovers(tokens: seq<string>, t: string, w: string)
    requires t in tokens && w in Split(t)
    ensures w in SplitAll(tokens)
    decreases |tokens|
  {
    var init := tokens[..|tokens| - 1];
    if t != tokens[|tokens| - 1] {
      assert t in init by { var k :| 0 <= k < |tokens| && tokens[k] == t; assert init[k] == t; }
      SplitAllCovers(init, t, w);
    }
  }

  lemma BlankChars(text: string)
    ensures forall ch <- Blank(text) :: ch in text || ch == ' '
  {
    ReplaceCharChars(text, '"', " ");
    ReplaceCharChars(ReplaceChar(text, '"', " "), '?', []);
  }

  /** Tokenizing adds no character other than whitespace. */
  lemma TokenChars(text: string, t: string)
    requires t in TokensOf(text)
    ensures forall ch <- t :: IsSpace(ch) || ch in text
  {
    forall ch | ch in t && !IsSpace(ch) ensures ch in text {
      SplitFromCovers(t, [], ch);
      var w :| w in Split(t) && ch in w;
      SplitAllCovers(TokensOf(text), t, w);
      TokensKeepWords(text);
      SplitFromChars(Blank(text), []);
      BlankChars(text);
    }
  }

  /** Without any `"` there is nothing to buffer: each word is a token. */
  lemma {:induction false} RunWithoutQuotes(words: seq<string>)
    requires forall w <- words :: '"' !in w
    ensures Run(words) == Scan(words, false, [])
    decreases |words|
  {
    if words != [] {
      var init := words[..|words| - 1];
      assert words == init + [words[|words| - 1]];
      assert words[|words| - 1] in words;
      RunWithoutQuotes(init);
    }
  }

  /** Text without `"` tokenizes to its whitespace split, with `?` deleted. */
  lemma TokensWithoutQuotes(text: string)
    requires '"' !in text
    ensures TokensOf(text) == Split(RemoveChar(text, '?'))
  {
    ReplaceCharAbsent(text, '"', " \" ");
    var words := Words(text);
    SplitFromChars(Prepare(text), []);
    ReplaceCharChars(text, '?', []);
    RunWithoutQuotes(words);
  }

  /** The quote flag is set by the first `"` and never cleared. */
  lemma {:induction false} QuoteFlag(words: seq<string>)
    ensures Run(words).inQuote <==> exists k | 0 <= k < |words| :: '"' in words[k]
    decreases |words|
  {
    if words != [] {
      var init := words[..|words| - 1];
      QuoteFlag(init);
      if Run(init).inQuote {
        var k :| 0 <= k < |init| && '"' in init[k];
        assert words[k] == init[k];
      } else {
        forall k | 0 <= k < |init| ensures '"' !in words[k] {
          assert words[k] == init[k];
        }
      }
    }
  }

  /** Once in quote mode, the buffer holds exactly the words seen since the
      latest `"`; it is what that next `"` (or the final flush) emits. */
  lemma {:induction false} BufferSinceLastQuote(words: seq<string>)
    requires forall w <- words :: Shaped(w)
    requires Run(words).inQuote
    ensures exists k | 0 <= k < |words| :: LastQuoteAt(words, k)
              && Unquoted(Run(words).buffer) == words[k + 1..]
    decreases |words|
  {
    var init, w := words[..|words| - 1], words[|words| - 1];
    assert words == init + [w];
    assert w in words;
    if w == Quote {
      ClosingQuoteEmptiesBuffer(init);
      assert LastQuoteAt(words, |words| - 1);
      assert words[|words|..] == [];
    } else {
      InQuoteBeforeWord(init, w);
      assert forall v <- init :: Shaped(v) by {
        forall v <- init ensures Shaped(v) {
          var i :| 0 <= i < |init| && init[i] == v;
          assert words[i] == v;
        }
      }
      BufferSinceLastQuote(init);
      var k :| 0 <= k < |init| && LastQuoteAt(init, k) && Unquoted(Run(init).buffer) == init[k + 1..];
      WordAfterLastQuote(init, w, k);
    }
  }

  lemma InQuoteBeforeWord(init: seq<string>, w: string)
    requires Shaped(w) && w != Quote && Run(init + [w]).inQuote
    ensures Run(init).inQuote
    ensures Unquoted(Run(init + [w]).buffer) == Unquoted(Run(init).buffer) + [w]
  {
    var words := init + [w];
    assert words[..|words| - 1] == init;
    var st := Run(init);
    assert Run(words) == Step(st, w);
    assert Run(words).buffer == st.buffer + [w];
    UnquotedAppend(st.buffer, [w]);
    UnquotedClean(w);
  }

  lemma WordAfterLastQuote(init: seq<string>, w: string, k: int)
    requires LastQuoteAt(init, k) && w != Quote
    ensures LastQuoteAt(init + [w], k)
    ensures (init + [w])[k + 1..] == init[k + 1..] + [w]
  {
    var words := init + [w];
    forall j | k < j < |words| ensures words[j] != Quote {
      if j < |init| { assert words[j] == init[j]; }
    }
  }

  /** After a `"` word nothing emitted-later is left in the buffer. */
  lemma ClosingQuoteEmptiesBuffer(init: seq<string>)
    ensures Unquoted(Run(init + [Quote]).buffer) == []
  {
    var words := init + [Quote];
    assert words[..|words| - 1] == init;
    var st := Run(init);
    assert Run(words) == Step(st, Quote);
    assert '"' in Quote by { assert Quote[0] == '"'; }
    if !st.inQuote {
      BufferEmptyOutsideQuote(init);
      assert Run(words).buffer == [Quote];
      UnquotedQuote();
    }
  }

  lemma {:induction false} BufferEmptyOutsideQuote(words: seq<string>)
    ensures !Run(words).inQuote ==> Run(words).buffer == []
    decreases |words|
  {
    if words != [] {
      BufferEmptyOutsideQuote(words[..|words| - 1]);
    }
  }

  /** Position `k` holds the latest `"` word of `words`. */
  predicate LastQuoteAt(words: seq<string>, k: int) {
    0 <= k < |words| && words[k] == Quote && forall j | k < j < |words| :: words[j] != Quote
  }

  /** Input made only of whitespace and `?` has no tokens. */
  lemma BlankInput(text: string)
    requires forall i | 0 <= i < |text| :: IsSpace(text[i]) || text[i] == '?'
    ensures TokensOf(text) == []
  {
    assert '"' !in text;
    ReplaceCharAbsent(text, '"', " \" ");
    ReplaceCharChars(text, '?', []);
    var p := Prepare(text);
    forall i | 0 <= i < |p| ensures IsSpace(p[i]) {
      assert p[i] in p;
      var j :| 0 <= j < |text| && text[j] == p[i];
    }
    SplitBlank(p);
  }

  // ---------------------------------------------------------------------
  // Quoted spans, step by step

  lemma RunSnoc(words: seq<string>, w: string)
    ensures Run(words + [w]) == Step(Run(words), w)
  {
    assert (words + [w])[..|words|] == words;
  }

  /** Outside quote mode, quote-free words become tokens one by one. */
  lemma {:induction false} PlainWords(words: seq<string>, ys: seq<string>)
    requires !Run(words).inQuote
    requires forall y <- ys :: '"' !in y
    ensures Run(words + ys) == Scan(Run(words).result + ys, false, [])
    decreases |ys|
  {
    if ys == [] {
      BufferEmptyOutsideQuote(words);
      assert words + ys == words;
    } else {
      var init, y := ys[..|ys| - 1], ys[|ys| - 1];
      assert ys == init + [y];
      var st := Run(words + init);
      assert st == Scan(Run(words).result + init, false, []) by {
        assert forall z <- init :: z in ys;
        PlainWords(words, init);
      }
      assert Run(words + ys) == Step(st, y) by {
        assert words + ys == (words + init) + [y];
        RunSnoc(words + init, y);
      }
      assert '"' !in y by { assert y in ys; }
    }
  }

  /** In quote mode, quote-free words are only buffered. */
  lemma {:induction false} BufferedWords(words: seq<string>, ys: seq<string>)
    requires Run(words).inQuote
    requires forall y <- ys :: '"' !in y
    ensures Run(words + ys) == Scan(Run(words).result, true, Run(words).buffer + ys)
    decreases |ys|
  {
    if ys == [] {
      assert words + ys == words;
    } else {
      var init, y := ys[..|ys| - 1], ys[|ys| - 1];
      assert ys == init + [y];
      var st := Run(words + init);
      assert st == Scan(Run(words).result, true, Run(words).buffer + init) by {
        assert forall z <- init :: z in ys;
        BufferedWords(words, init);
      }
      assert Run(words + ys) == Step(st, y) by {
        assert words + ys == (words + init) + [y];
        RunSnoc(words + init, y);
      }
      assert '"' !in y by { assert y in ys; }
    }
  }

  /** The first `"` only switches quote mode on. */
  lemma OpenQuote(words: seq<string>)
    requires !Run(words).inQuote
    ensures Run(words + [Quote]) == Scan(Run(words).result, true, [Quote])
  {
    BufferEmptyOutsideQuote(words);
    RunSnoc(words, Quote);
    assert '"' in Quote by { assert Quote[0] == '"'; }
  }

  /** A later `"` emits the buffered words as one space-joined token. */
  lemma CloseQuote(words: seq<string>)
    requires Run(words).inQuote
    ensures Run(words + [Quote])
         == Scan(Run(words).result + [Join(Unquoted(Run(words).buffer))], true, [])
  {
    RunSnoc(words, Quote);
    assert '"' in Quote by { assert Quote[0] == '"'; }
    var buffer := Run(words).buffer;
    assert Unquoted(buffer + [Quote]) == Unquoted(buffer) by {
      UnquotedAppend(buffer, [Quote]);
      UnquotedQuote();
      assert Unquoted(buffer) + [] == Unquoted(buffer);
    }
  }

  lemma {:induction false} UnquotedCleanWords(ys: seq<string>)
    requires forall y <- ys :: Clean(y)
    ensures Unquoted(ys) == ys
    decreases |ys|
  {
    if ys != [] {
      var init, y := ys[..|ys| - 1], ys[|ys| - 1];
      assert ys == init + [y] && y in ys;
      assert forall v <- init :: v in ys;
      UnquotedCleanWords(init);
      assert Unquoted([y]) == [y] by { UnquotedClean(y); }
      UnquotedAppend(init, [y]);
    }
  }

  lemma UnquotedOpenedWords(ys: seq<string>)
    requires forall y <- ys :: Clean(y)
    ensures Unquoted([Quote] + ys) == ys
  {
    UnquotedCleanWords(ys);
    UnquotedAppend([Quote], ys);
    UnquotedQuote();
  }

  /** Text laid out as words and lone `"` marks separated by single spaces
      yields exactly those words. */
  lemma {:induction false} WordsOfJoin(ps: seq<string>)
    requires forall p <- ps :: Shaped(p)
    ensures Words(Join(ps)) == ps
  {
    if ps != [] {
      var p := ps[0];
      assert Shaped(p) by { assert p in ps; }
      if |ps| == 1 {
        PrepareShaped(p);
        if p == Quote {
          SplitFromQuote([], []);
        } else {
          SplitWord(p);
        }
      } else {
        assert Words(Join(ps[1..])) == ps[1..] by {
          assert forall q <- ps[1..] :: q in ps;
          WordsOfJoin(ps[1..]);
        }
        WordsOfJoinCons(p, ps[1..]);
        assert ps == [p] + ps[1..];
      }
    }
  }

  /** A shaped word is prepared to itself, or `"` to the quote word. */
  lemma PrepareShaped(p: string)
    requires Shaped(p)
    ensures Prepare(p) == if p == Quote then " \" " else p
  {
    if p == Quote {
      PrepareCons('"', []);
      assert [] + Quote == Quote;
      assert Prepare([]) == [];
    } else {
      ReplaceCharAbsent(p, '"', " \" ");
      ReplaceCharAbsent(p, '?', []);
    }
  }

  /** The step of `WordsOfJoin` over one more leading word. */
  lemma WordsOfJoinCons(p: string, ps: seq<string>)
    requires Shaped(p) && ps != [] && Words(Join(ps)) == ps
    ensures Words(Join([p] + ps)) == [p] + ps
  {
    var rest := Join(ps);
    var prepared := if p == Quote then " \" " else p;
    var tail := Prepare(rest);
    assert Prepare(Join([p] + ps)) == prepared + ([' '] + tail) by {
      assert ([p] + ps)[1..] == ps;
      assert Join([p] + ps) == p + ([' '] + rest);
      PrepareShaped(p);
      PrepareAppend(p, [' '] + rest);
      PrepareCons(' ', rest);
    }
    if p == Quote {
      SplitFromQuote([' '] + tail, []);
      SplitFromCons(' ', tail, []);
    } else {
      SplitFromSkipWord(p, [' '] + tail, []);
      assert [] + p == p;
      SplitFromCons(' ', tail, p);
    }
  }

  lemma PrepareAppend(x: string, y: string)
    ensures Prepare(x + y) == Prepare(x) + Prepare(y)
  {
    ReplaceCharAppend(x, y, '"', " \" ");
    ReplaceCharAppend(ReplaceChar(x, '"', " \" "), ReplaceChar(y, '"', " \" "), '?', []);
  }

  // ---------------------------------------------------------------------
  // Worked shapes of input

  /** Ordinary words: non-empty, no whitespace, no `"`, no `?`. */
  predicate Plain(ys: seq<string>) {
    forall y <- ys :: IsWord(y) && Clean(y)
  }

  lemma PlainShaped(ps: seq<string>)
    requires forall p <- ps :: p == Quote || (IsWord(p) && Clean(p))
    ensures forall p <- ps :: Shaped(p)
  {
    assert IsWord(Quote);
  }

  /** One quoted span, then more words: `x.. "y.." z..` gives the x's, the y's
      joined by spaces as one token, then the z's, each on its own (the
      z's sit in the buffer until the final flush). */
  lemma OneQuotedSpan(xs: seq<string>, ys: seq<string>, zs: seq<string>)
    requires Plain(xs) && Plain(ys) && Plain(zs)
    ensures TokensOf(Join(xs + [Quote] + ys + [Quote] + zs)) == xs + [Join(ys)] + zs
  {
    var ws := xs + [Quote] + ys + [Quote] + zs;
    PlainShaped(ws);
    WordsOfJoin(ws);
    var closed := xs + [Quote] + ys + [Quote];
    ClosedSpan(xs, ys);
    BufferedWords(closed, zs);
    assert [] + zs == zs;
    if |zs| > 0 {
      UnquotedCleanWords(zs);
    }
  }

  /** The loop's state right after a quoted span that follows plain words. */
  lemma ClosedSpan(xs: seq<string>, ys: seq<string>)
    requires Plain(xs) && Plain(ys)
    ensures Run(xs + [Quote] + ys + [Quote]) == Scan(xs + [Join(ys)], true, [])
  {
    assert Run(xs) == Scan(xs, false, []) by {
      PlainWords([], xs);
      assert [] + xs == xs;
    }
    OpenQuote(xs);
    BufferedWords(xs + [Quote], ys);
    CloseQuote(xs + [Quote] + ys);
    UnquotedOpenedWords(ys);
  }

  /** A `"` that is never closed: the words after it are emitted one by one,
      not joined (`a "b c` gives `a`, `b`, `c`). */
  lemma UnterminatedSpan(xs: seq<string>, ys: seq<string>)
    requires Plain(xs) && Plain(ys)
    ensures TokensOf(Join(xs + [Quote] + ys)) == xs + ys
  {
    var ws := xs + [Quote] + ys;
    PlainShaped(ws);
    WordsOfJoin(ws);
    assert Run(xs) == Scan(xs, false, []) by {
      PlainWords([], xs);
      assert [] + xs == xs;
    }
    OpenQuote(xs);
    BufferedWords(xs + [Quote], ys);
    UnquotedOpenedWords(ys);
  }

  /** In quote mode with nothing buffered, words followed by `"` become one token. */
  lemma SpanInQuote(words: seq<string>, ys: seq<string>)
    requires Run(words).inQuote && Unquoted(Run(words).buffer) == [] && Plain(ys)
    ensures Run(words + ys + [Quote]) == Scan(Run(words).result + [Join(ys)], true, [])
  {
    BufferedWords(words, ys);
    CloseQuote(words + ys);
    UnquotedAppend(Run(words).buffer, ys);
    assert [] + ys == ys;
    UnquotedCleanWords(ys);
  }

  /** Several spans: `a "b c" d "e"` gives `a`, `b c`, `d`, `e`; after the
      first span every `"` closes whatever was buffered since the previous one. */
  lemma SeveralSpans(a: string, b: string, c: string, d: string, e: string)
    requires Plain([a]) && Plain([b, c]) && Plain([d]) && Plain([e])
    ensures TokensOf(Join([a, Quote, b, c, Quote, d, Quote, e, Quote])) == [a, b + " " + c, d, e]
  {
    var ws := [a, Quote, b, c, Quote, d, Quote, e, Quote];
    assert Words(Join(ws)) == ws by {
      assert a in [a] && b in [b, c] && c in [b, c] && d in [d] && e in [e];
      PlainShaped(ws);
      WordsOfJoin(ws);
    }
    SeveralSpansRun(a, b, c, d, e);
  }

  lemma SeveralSpansRun(a: string, b: string, c: string, d: string, e: string)
    requires Plain([a]) && Plain([b, c]) && Plain([d]) && Plain([e])
    ensures Run([a, Quote, b, c, Quote, d, Quote, e, Quote]) == Scan([a, b + " " + c, d, e], true, [])
  {
    var second := [a, Quote, b, c, Quote, d, Quote];
    SecondSpanRun(a, b, c, d);
    SpanAfter(second, [e], [a, b + " " + c, d]);
    assert Join([e]) == e;
    assert second + [e] + [Quote] == [a, Quote, b, c, Quote, d, Quote, e, Quote];
    assert [a, b + " " + c, d] + [e] == [a, b + " " + c, d, e];
  }

  lemma SecondSpanRun(a: string, b: string, c: string, d: string)
    requires Plain([a]) && Plain([b, c]) && Plain([d])
    ensures Run([a, Quote, b, c, Quote, d, Quote]) == Scan([a, b + " " + c, d], true, [])
  {
    var first := [a, Quote, b, c, Quote];
    FirstSpanRun(a, b, c);
    SpanAfter(first, [d], [a, b + " " + c]);
    assert Join([d]) == d;
    assert first + [d] + [Quote] == [a, Quote, b, c, Quote, d, Quote];
    assert [a, b + " " + c] + [d] == [a, b + " " + c, d];
  }

  /** After a closed span, plain words and a `"` add one more token. */
  lemma SpanAfter(words: seq<string>, ys: seq<string>, toks: seq<string>)
    requires Run(words) == Scan(toks, true, []) && Plain(ys)
    ensures Run(words + ys + [Quote]) == Scan(toks + [Join(ys)], true, [])
  {
    SpanInQuote(words, ys);
  }

  lemma FirstSpanRun(a: string, b: string, c: string)
    requires Plain([a]) && Plain([b, c])
    ensures Run([a, Quote, b, c, Quote]) == Scan([a, b + " " + c], true, [])
  {
    assert Run([a]) == Scan([a], false, []) by {
      PlainWords([], [a]);
      assert [] + [a] == [a];
    }
    OpenQuote([a]);
    UnquotedQuote();
    SpanInQuote([a] + [Quote], [b, c]);
    assert [a] + [Quote] + [b, c] + [Quote] == [a, Quote, b, c, Quote];
  }

  /** `""` yields one empty token. */
  lemma AdjacentQuotes()
    ensures TokensOf("\"\"") == [""]
  {
    TwoQuoteWords();
    OpenQuote([]);
    assert [] + [Quote] == [Quote];
    CloseQuote([Quote]);
    UnquotedQuote();
  }

  lemma TwoQuoteWords()
    ensures Words("\"\"") == [Quote, Quote]
  {
    TwoQuotesPrepared();
    SplitFromQuote(" \" ", []);
    SplitFromQuote([], []);
  }

  lemma TwoQuotesPrepared()
    ensures Prepare("\"\"") == " \" " + " \" "
  {
    PrepareCons('"', "\"");
    PrepareCons('"', []);
    assert Prepare([]) == [];
  }

  /** A trailing `?` is dropped: `what?` gives `what`. */
  lemma QuestionMarkDropped(w: string)
    requires Plain([w])
    ensures TokensOf(w + "?") == [w]
  {
    assert w in [w];
    var text := w + "?";
    assert '"' !in text;
    TokensWithoutQuotes(text);
    assert RemoveChar(text, '?') == w by {
      ReplaceCharAppend(w, "?", '?', []);
      ReplaceCharAbsent(w, '?', []);
      assert RemoveChar("?", '?') == [];
    }
    SplitWord(w);
  }

  /** A sentence typed as plain words separated by single spaces, with or
      without a closing `?`, tokenizes to exactly those words. */
  lemma SentenceOfPlainWords(ys: seq<string>, mark: string)
    requires Plain(ys) && (mark == [] || mark == "?")
    ensures TokensOf(Join(ys) + mark) == ys
  {
    var text := Join(ys) + mark;
    assert '"' !in Join(ys) && '?' !in Join(ys) by {
      JoinChars(ys);
    }
    assert '"' !in text;
    TokensWithoutQuotes(text);
    assert RemoveChar(text, '?') == Join(ys) by {
      ReplaceCharAppend(Join(ys), mark, '?', []);
      ReplaceCharAbsent(Join(ys), '?', []);
      assert RemoveChar(mark, '?') == [] by {
        if mark != [] {
          assert mark[0] == '?' && mark[1..] == [];
        }
      }
    }
    SplitJoin(ys);
  }

  /** A word of ASCII letters is a plain word. */
  lemma LetterWord(w: string)
    requires w != [] && forall i | 0 <= i < |w| :: IsLetter(w[i])
    ensures IsWord(w) && Clean(w)
  {
  }

  /** Text without `"` or `?` is prepared to itself. */
  lemma PrepareClean(s: string)
    requires Clean(s)
    ensures Prepare(s) == s
  {
    ReplaceCharAbsent(s, '"', " \" ");
    ReplaceCharAbsent(s, '?', []);
  }

  /** A clean text followed by a `"`: the mark is padded with spaces. */
  lemma PrepareBeforeQuote(u: string)
    requires Clean(u)
    ensures Prepare(u + Quote) == u + " \" "
  {
    PrepareClean(u);
    PrepareShaped(Quote);
    PrepareAppend(u, Quote);
  }

  /** Words, a run of whitespace, more words with a `"` glued to the last,
      then a span closed by a `"` glued to its last word, as the loop sees it. */
  lemma GluedQuotePrepared(a: string, gap: string, b: string, c: string)
    requires Clean(a) && Clean(gap) && Clean(b) && Clean(c)
    ensures Prepare((a + gap + b + Quote) + (" " + c + Quote)) == a + gap + b + " \" " + (" " + c + " \" ")
  {
    var front := a + gap + b;
    assert Clean(front);
    assert Clean(" " + c);
    PrepareBeforeQuote(front);
    PrepareBeforeQuote(" " + c);
    PrepareAppend(front + Quote, " " + c + Quote);
  }

  /** How `split()` cuts the prepared text of `GluedQuotePrepared`. */
  lemma GluedQuoteSplit(a: string, gap: string, b: string, c: string)
    requires gap != [] && forall i :: 0 <= i < |gap| ==> IsSpace(gap[i])
    ensures Split(a + gap + b + " \" " + (" " + c + " \" "))
         == Split(a) + Split(b) + [Quote] + Split(c) + [Quote]
  {
    assert IsWord(Quote);
    SplitWord(Quote);
    var tail := Quote + " ";
    var third := c + " " + tail;
    var second := Quote + "  " + third;
    var first := b + " " + second;
    assert a + gap + b + " \" " + (" " + c + " \" ") == a + gap + first;
    SplitGap(a, gap, first);
    SplitGap(b, " ", second);
    SplitGap(Quote, "  ", third);
    SplitGap(c, " ", tail);
    SplitGap(Quote, " ", []);
    assert Quote + " " + [] == tail;
  }

  /** A run of spaces counts as one, and a `"` glued to a word still opens
      or closes a span: words, spaces, words glued to a `"`, then a span
      closed by a `"` glued to its last word. */
  lemma GluedQuoteSpan(xs1: seq<string>, gap: string, xs2: seq<string>, ys: seq<string>)
    requires Plain(xs1) && Plain(xs2) && Plain(ys)
    requires gap != [] && forall i :: 0 <= i < |gap| ==> IsSpace(gap[i]) && gap[i] != '"' && gap[i] != '?'
    ensures TokensOf((Join(xs1) + gap + Join(xs2) + Quote) + (" " + Join(ys) + Quote))
         == xs1 + xs2 + [Join(ys)]
  {
    var a, b, c := Join(xs1), Join(xs2), Join(ys);
    assert Clean(a) && Clean(b) && Clean(c) by {
      JoinChars(xs1);
      JoinChars(xs2);
      JoinChars(ys);
    }
    assert Clean(gap) by {
      assert forall k :: 0 <= k < |gap| ==> gap[k] != '"' && gap[k] != '?';
    }
    GluedQuotePrepared(a, gap, b, c);
    GluedQuoteSplit(a, gap, b, c);
    SplitJoin(xs1);
    SplitJoin(xs2);
    SplitJoin(ys);
    var xs := xs1 + xs2;
    var ws := xs + [Quote] + ys + [Quote];
    assert xs1 + xs2 + [Quote] + ys + [Quote] == ws + [];
    PlainShaped(ws + []);
    WordsOfJoin(ws + []);
    OneQuotedSpan(xs, ys, []);
    assert xs + [Join(ys)] + [] == xs1 + xs2 + [Join(ys)];
  }

  /** The worked example up to the `"` that opens its span, piece by piece. */
  lemma DocExampleFront()
    ensures "This is a string" + "         " + "with quotes around part" + Quote
         == "This is a string         with quotes around part\""
  {
    DocExampleWords();
  }

  lemma DocExampleWords()
    ensures "This is a string" + "         " == "This is a string         "
    ensures "This is a string         " + "with quotes around part" == "This is a string         with quotes around part"
  {
  }

  /** The worked example's span and its closing `"`, piece by piece. */
  lemma DocExampleBack()
    ensures " " + "and some more quoted text" + Quote == " and some more quoted text\""
  {
  }

  lemma DocExampleWhole()
    ensures "This is a string         with quotes around part\"" + " and some more quoted text\""
         == "This is a string         with quotes around part\" and some more quoted text\""
  {
  }

  /** The words before the worked example's run of spaces, joined by single spaces. */
  lemma DocExampleJoinFront(xs: seq<string>)
    requires xs == ["This", "is", "a", "string"]
    ensures Plain(xs) && Join(xs) == "This is a string"
  {
    LetterWord(xs[0]);
    LetterWord(xs[1]);
    LetterWord(xs[2]);
    LetterWord(xs[3]);
    assert Join(["This", "is", "a", "string"]) == "This is a string";
  }

  /** The words after the run of spaces, up to the opening `"`. */
  lemma DocExampleJoinMiddle(xs: seq<string>)
    requires xs == ["with", "quotes", "around", "part"]
    ensures Plain(xs) && Join(xs) == "with quotes around part"
  {
    LetterWord(xs[0]);
    LetterWord(xs[1]);
    LetterWord(xs[2]);
    LetterWord(xs[3]);
    assert Join(["with", "quotes", "around", "part"]) == "with quotes around part";
  }

  /** The words of the quoted span. */
  lemma DocExampleJoinBack(ys: seq<string>)
    requires ys == ["and", "some", "more", "quoted", "text"]
    ensures Plain(ys) && Join(ys) == "and some more quoted text"
  {
    LetterWord(ys[0]);
    LetterWord(ys[1]);
    LetterWord(ys[2]);
    LetterWord(ys[3]);
    LetterWord(ys[4]);
    assert Join(["and", "some", "more", "quoted", "text"]) == "and some more quoted text";
  }

  /** The module's own worked example: the run of spaces counts as one, and
      the `"` glued to `part` opens the span that the final `"` closes. */
  lemma DocExample(text: string)
    requires text == "This is a string         with quotes around part\" and some more quoted text\""
    ensures TokensOf(text)
         == ["This", "is", "a", "string", "with", "quotes", "around", "part", "and some more quoted text"]
  {
    var xs1, xs2 := ["This", "is", "a", "string"], ["with", "quotes", "around", "part"];
    var ys := ["and", "some", "more", "quoted", "text"];
    DocExampleFront();
    DocExampleBack();
    DocExampleWhole();
    DocExampleJoinFront(xs1);
    DocExampleJoinMiddle(xs2);
    DocExampleJoinBack(ys);
    assert text == (Join(xs1) + "         " + Join(xs2) + Quote) + (" " + Join(ys) + Quote);
    GluedQuoteSpan(xs1, "         ", xs2, ys);
  }
}
