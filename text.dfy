/**
  The handful of Python `str` operations the bot relies on, written as
  functions over `string` (= `seq<char>`): whitespace splitting, joining with a
  space, single-character replacement, substring search and removal, and
  lower-casing.  Each is stated the way CPython behaves on them.
*/
module Text {

  /** `c.isspace()`: the separators `str.split()` (no argument) splits on,
      listed by code point (tab to carriage return, the four information
      separators, space, NEL, no-break space and the Unicode space characters). */
  predicate IsSpace(c: char) {
    var n := c as int;
    (9 <= n <= 13) || (28 <= n <= 32) || n == 0x85 || n == 0xA0 || n == 0x1680
    || (0x2000 <= n <= 0x200A) || n == 0x2028 || n == 0x2029 || n == 0x202F
    || n == 0x205F || n == 0x3000
  }

  predicate NoSpace(w: string) {
    forall i :: 0 <= i < |w| ==> !IsSpace(w[i])
  }

  /** A word as `str.split()` produces it: non-empty, without separators. */
  predicate IsWord(w: string) {
    w != [] && NoSpace(w)
  }

  function Emit(cur: string): seq<string> {
    if cur == [] then [] else [cur]
  }

  /** Splitting `s` on runs of whitespace, with the word `cur` already begun. */
  function SplitFrom(s: string, cur: string): seq<string>
    decreases |s|
  {
    if s == [] then Emit(cur)
    else if IsSpace(s[0]) then Emit(cur) + SplitFrom(s[1..], [])
    else SplitFrom(s[1..], cur + [s[0]])
  }

  /** `s.split()` */
  function Split(s: string): seq<string> {
    SplitFrom(s, [])
  }

  /** `' '.join(ws)` */
  function Join(ws: seq<string>): string {
    if ws == [] then []
    else if |ws| == 1 then ws[0]
    else ws[0] + " " + Join(ws[1..])
  }

  /** `s.replace(c, r)` for a one-character `c`; `s.replace(c, '')` when `r` is empty. */
  function ReplaceChar(s: string, c: char, r: string): string {
    if s == [] then []
    else (if s[0] == c then r else [s[0]]) + ReplaceChar(s[1..], c, r)
  }

  function RemoveChar(s: string, c: char): string {
    ReplaceChar(s, c, [])
  }

  /** `p in s` for strings: `p` occurs in `s` as a contiguous substring. */
  predicate Contains(s: string, p: string) {
    exists i | 0 <= i <= |s| :: OccursAt(s, p, i)
  }

  predicate OccursAt(s: string, p: string, i: int) {
    0 <= i <= |s| - |p| && s[i..i + |p|] == p
  }

  /** An occurrence survives text added on either side. */
  lemma ContainsExtended(s: string, p: string, before: string, after: string)
    requires Contains(s, p)
    ensures Contains(before + s + after, p)
  {
    var i :| 0 <= i <= |s| && OccursAt(s, p, i);
    assert (before + s + after)[|before| + i..|before| + i + |p|] == s[i..i + |p|];
    assert OccursAt(before + s + after, p, |before| + i);
  }

  lemma ContainsSelf(p: string)
    ensures Contains(p, p)
  {
    assert OccursAt(p, p, 0);
  }

  /** `s.replace(p, '')`: occurrences of `p` removed left to right, without overlap. */
  function RemoveAll(s: string, p: string): string
    requires p != []
    decreases |s|
  {
    if |s| < |p| then s
    else if s[..|p|] == p then RemoveAll(s[|p|..], p)
    else [s[0]] + RemoveAll(s[1..], p)
  }

  /** `c.lower()` restricted to ASCII letters. */
  function LowerChar(c: char): char {
    if 'A' <= c <= 'Z' then (c as int + 32) as char else c
  }

  /** `s.lower()` restricted to ASCII letters. */
  function Lower(s: string): string {
    if s == [] then [] else [LowerChar(s[0])] + Lower(s[1..])
  }

  /** `s.count(c)` for a one-character `c`. */
  function CountChar(s: string, c: char): nat {
    if s == [] then 0 else (if s[0] == c then 1 else 0) + CountChar(s[1..], c)
  }

  /** `s.split(c)[1]` when `c` occurs in `s`: the text after its first occurrence. */
  function AfterFirst(s: string, c: char): string {
    if s == [] then []
    else if s[0] == c then s[1..]
    else AfterFirst(s[1..], c)
  }

  /** Regular-expression classes, ASCII only: `[0-9]`, `[A-Z]` under
      IGNORECASE, and `\w`. */
  predicate IsDigit(c: char) {
    '0' <= c <= '9'
  }

  predicate IsLetter(c: char) {
    'a' <= c <= 'z' || 'A' <= c <= 'Z'
  }

  predicate IsWordChar(c: char) {
    IsLetter(c) || IsDigit(c) || c == '_'
  }

  // ---------------------------------------------------------------------
  // Facts about splitting and joining

  lemma SplitFromCons(c: char, s: string, cur: string)
    ensures SplitFrom([c] + s, cur)
         == if IsSpace(c) then Emit(cur) + SplitFrom(s, []) else SplitFrom(s, cur + [c])
  {
    assert ([c] + s)[0] == c;
    assert ([c] + s)[1..] == s;
  }

  /** Every piece `str.split()` yields is a non-empty word without whitespace. */
  lemma {:induction false} SplitFromWords(s: string, cur: string)
    requires NoSpace(cur)
    ensures forall w <- SplitFrom(s, cur) :: IsWord(w)
    decreases |s|
  {
    if s != [] {
      if IsSpace(s[0]) {
        SplitFromWords(s[1..], []);
      } else {
        SplitFromWords(s[1..], cur + [s[0]]);
      }
    }
  }

  lemma SplitWords(s: string)
    ensures forall w <- Split(s) :: IsWord(w)
  {
    SplitFromWords(s, []);
  }

  /** The characters of the words come from the input (or the word begun). */
  lemma {:induction false} SplitFromChars(s: string, cur: string)
    ensures forall w <- SplitFrom(s, cur) :: forall ch <- w :: ch in s || ch in cur
    decreases |s|
  {
    if s != [] {
      if IsSpace(s[0]) {
        SplitFromChars(s[1..], []);
      } else {
        SplitFromChars(s[1..], cur + [s[0]]);
        forall w <- SplitFrom(s, cur), ch <- w ensures ch in s || ch in cur {
          assert ch in s[1..] || ch in cur + [s[0]];
          if ch in s[1..] {
            var k :| 0 <= k < |s[1..]| && s[1..][k] == ch;
            assert s[k + 1] == ch;
          }
        }
      }
    }
  }

  /** Every character that is not whitespace ends up in one of the words. */
  lemma {:induction false} SplitFromCovers(s: string, cur: string, ch: char)
    requires (ch in s || ch in cur) && !IsSpace(ch)
    ensures exists w <- SplitFrom(s, cur) :: ch in w
    decreases |s|
  {
    if s == [] {
      assert SplitFrom(s, cur) == [cur];
    } else if IsSpace(s[0]) {
      if ch in cur {
        assert cur in SplitFrom(s, cur) by { assert SplitFrom(s, cur) == [cur] + SplitFrom(s[1..], []); }
      } else {
        assert ch in s[1..] by { var k :| 0 <= k < |s| && s[k] == ch; assert k != 0 && s[1..][k - 1] == ch; }
        SplitFromCovers(s[1..], [], ch);
        var w :| w in SplitFrom(s[1..], []) && ch in w;
        assert w in SplitFrom(s, cur);
      }
    } else {
      assert ch in s[1..] || ch in cur + [s[0]] by {
        if ch !in cur {
          var k :| 0 <= k < |s| && s[k] == ch;
          if k > 0 { assert s[1..][k - 1] == ch; } else { assert (cur + [s[0]])[|cur|] == ch; }
        } else {
          var k :| 0 <= k < |cur| && cur[k] == ch;
          assert (cur + [s[0]])[k] == ch;
        }
      }
      SplitFromCovers(s[1..], cur + [s[0]], ch);
    }
  }

  /** A whitespace-free prefix just extends the word being collected. */
  lemma {:induction false} SplitFromSkipWord(w: string, x: string, cur: string)
    requires NoSpace(w)
    ensures SplitFrom(w + x, cur) == SplitFrom(x, cur + w)
    decreases |w|
  {
    if w == [] {
      assert w + x == x;
      assert cur + w == cur;
    } else {
      assert w + x == [w[0]] + (w[1..] + x);
      SplitFromCons(w[0], w[1..] + x, cur);
      SplitFromSkipWord(w[1..], x, cur + [w[0]]);
      assert cur + [w[0]] + w[1..] == cur + w;
    }
  }

  /** A word splits to itself. */
  lemma SplitWord(w: string)
    requires IsWord(w)
    ensures Split(w) == [w]
  {
    SplitFromSkipWord(w, [], []);
    assert w + [] == w;
    assert [] + w == w;
  }

  /** `' '.join` followed by `split()` gives the words back. */
  lemma {:induction false} SplitJoin(ws: seq<string>)
    requires forall w <- ws :: IsWord(w)
    ensures Split(Join(ws)) == ws
  {
    if ws == [] {
    } else if |ws| == 1 {
      assert ws[0] in ws;
      SplitWord(ws[0]);
    } else {
      assert ws[0] in ws;
      var rest := Join(ws[1..]);
      assert Join(ws) == ws[0] + ([' '] + rest);
      SplitFromSkipWord(ws[0], [' '] + rest, []);
      assert [] + ws[0] == ws[0];
      SplitFromCons(' ', rest, ws[0]);
      SplitJoin(ws[1..]);
      assert ws == [ws[0]] + ws[1..];
    }
  }

  /** Joining two non-empty lists is joining each and putting a space between. */
  lemma {:induction false} JoinAppend(a: seq<string>, b: seq<string>)
    requires a != [] && b != []
    ensures Join(a + b) == Join(a) + " " + Join(b)
    decreases |a|
  {
    if |a| == 1 {
      assert (a + b)[0] == a[0] && (a + b)[1..] == b;
    } else {
      assert (a + b)[0] == a[0] && (a + b)[1..] == a[1..] + b;
      JoinAppend(a[1..], b);
    }
  }

  /** The characters of a join are those of the parts and the separating spaces. */
  lemma {:induction false} JoinChars(ws: seq<string>)
    ensures forall ch <- Join(ws) :: ch == ' ' || exists w <- ws :: ch in w
  {
    if |ws| > 1 {
      JoinChars(ws[1..]);
      forall ch <- Join(ws) ensures ch == ' ' || exists w <- ws :: ch in w {
        if ch in ws[0] {
          assert ws[0] in ws;
        } else if ch != ' ' {
          assert ch in Join(ws[1..]);
          var w :| w in ws[1..] && ch in w;
          assert w in ws;
        }
      }
    } else if |ws| == 1 {
      assert ws[0] in ws;
    }
  }

  /** Leading whitespace is skipped. */
  lemma {:induction false} SplitFromBlank(g: string, b: string)
    requires forall i :: 0 <= i < |g| ==> IsSpace(g[i])
    ensures SplitFrom(g + b, []) == Split(b)
    decreases |g|
  {
    if g == [] {
      assert g + b == b;
    } else {
      assert g + b == [g[0]] + (g[1..] + b);
      SplitFromCons(g[0], g[1..] + b, []);
      SplitFromBlank(g[1..], b);
    }
  }

  /** A run of whitespace of any length separates what is before it from what is after. */
  lemma {:induction false} SplitFromGap(a: string, g: string, b: string, cur: string)
    requires g != [] && forall i :: 0 <= i < |g| ==> IsSpace(g[i])
    ensures SplitFrom(a + g + b, cur) == SplitFrom(a, cur) + Split(b)
    decreases |a|
  {
    if a == [] {
      assert a + g + b == [g[0]] + (g[1..] + b);
      SplitFromCons(g[0], g[1..] + b, cur);
      SplitFromBlank(g[1..], b);
    } else {
      assert a + g + b == [a[0]] + (a[1..] + g + b);
      SplitFromCons(a[0], a[1..] + g + b, cur);
      if IsSpace(a[0]) {
        SplitFromGap(a[1..], g, b, []);
      } else {
        SplitFromGap(a[1..], g, b, cur + [a[0]]);
      }
    }
  }

  /** `str.split()` treats a run of whitespace as one separator. */
  lemma SplitGap(a: string, g: string, b: string)
    requires g != [] && forall i :: 0 <= i < |g| ==> IsSpace(g[i])
    ensures Split(a + g + b) == Split(a) + Split(b)
  {
    SplitFromGap(a, g, b, []);
  }

  /** Input made only of whitespace splits to nothing. */
  lemma {:induction false} SplitBlank(s: string)
    requires forall i :: 0 <= i < |s| ==> IsSpace(s[i])
    ensures Split(s) == []
    decreases |s|
  {
    if s != [] {
      SplitBlank(s[1..]);
    }
  }

  // ---------------------------------------------------------------------
  // Facts about replacement

  lemma {:induction false} ReplaceCharAppend(a: string, b: string, c: char, r: string)
    ensures ReplaceChar(a + b, c, r) == ReplaceChar(a, c, r) + ReplaceChar(b, c, r)
    decreases |a|
  {
    if a == [] {
      assert a + b == b;
    } else {
      assert (a + b)[0] == a[0];
      assert (a + b)[1..] == a[1..] + b;
      ReplaceCharAppend(a[1..], b, c, r);
    }
  }

  /** Lower-casing works character by character. */
  /** `lower()` maps each character on its own and leaves no ASCII capital. */
  lemma {:induction false} LowerChars(s: string)
    ensures |Lower(s)| == |s|
    ensures forall i | 0 <= i < |s| :: Lower(s)[i] == LowerChar(s[i]) && !('A' <= Lower(s)[i] <= 'Z')
    decreases |s|
  {
    if s != [] {
      LowerChars(s[1..]);
      assert Lower(s) == [LowerChar(s[0])] + Lower(s[1..]);
    }
  }

  lemma {:induction false} LowerAppend(a: string, b: string)
    ensures Lower(a + b) == Lower(a) + Lower(b)
    decreases |a|
  {
    if a == [] {
      assert a + b == b;
    } else {
      assert (a + b)[0] == a[0];
      assert (a + b)[1..] == a[1..] + b;
      LowerAppend(a[1..], b);
    }
  }

  /** Removing a substring adds no character. */
  lemma {:induction false} RemoveAllChars(s: string, p: string)
    requires p != []
    ensures forall ch <- RemoveAll(s, p) :: ch in s
    decreases |s|
  {
    if |s| >= |p| {
      if s[..|p|] == p {
        RemoveAllChars(s[|p|..], p);
        forall ch <- RemoveAll(s, p) ensures ch in s {
          assert ch in s[|p|..];
          var k :| 0 <= k < |s[|p|..]| && s[|p|..][k] == ch;
          assert s[k + |p|] == ch;
        }
      } else {
        RemoveAllChars(s[1..], p);
        forall ch <- RemoveAll(s, p) ensures ch in s {
          if ch != s[0] {
            assert ch in RemoveAll(s[1..], p);
            var k :| 0 <= k < |s[1..]| && s[1..][k] == ch;
            assert s[k + 1] == ch;
          }
        }
      }
    }
  }

  /** Replacing a character that does not occur changes nothing. */
  lemma {:induction false} ReplaceCharAbsent(s: string, c: char, r: string)
    requires c !in s
    ensures ReplaceChar(s, c, r) == s
    decreases |s|
  {
    if s != [] {
      assert c !in s[1..];
      ReplaceCharAbsent(s[1..], c, r);
    }
  }

  /** After the replacement, every character came from `s` (and is not `c`) or from `r`. */
  lemma {:induction false} ReplaceCharChars(s: string, c: char, r: string)
    ensures forall ch <- ReplaceChar(s, c, r) :: (ch in s && ch != c) || ch in r
    decreases |s|
  {
    if s != [] {
      ReplaceCharChars(s[1..], c, r);
      forall ch <- ReplaceChar(s, c, r) ensures (ch in s && ch != c) || ch in r {
        var head := if s[0] == c then r else [s[0]];
        assert ReplaceChar(s, c, r) == head + ReplaceChar(s[1..], c, r);
        if ch !in head {
          assert ch in ReplaceChar(s[1..], c, r);
          if ch in s[1..] {
            var k :| 0 <= k < |s[1..]| && s[1..][k] == ch;
            assert s[k + 1] == ch;
          }
        }
      }
    }
  }

  /** After `s.replace(c, '')` no `c` is left, and every character came from `s`. */
  lemma RemoveCharChars(s: string, c: char)
    ensures c !in RemoveChar(s, c)
    ensures forall ch <- RemoveChar(s, c) :: ch in s
  {
    ReplaceCharChars(s, c, []);
  }

  /** `s.replace(c, '')` has no `c`, and no `d` when `s` had none. */
  lemma RemoveCharAbsent(s: string, c: char, d: char)
    ensures c !in RemoveChar(s, c)
    ensures d !in s ==> d !in RemoveChar(s, c)
  {
    RemoveCharChars(s, c);
  }
}
