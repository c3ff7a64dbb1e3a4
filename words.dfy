/**
 * The Python string operations the seed-retype screen relies on:
 * `str.split()` with no separator, `' '.join`, `str.strip()`, and
 * `str.lower()` / `str.upper()` (ASCII letters only).
 */
module Words {

  /** `str.isspace()` for one character: Python's whitespace code points. */
  predicate IsSpace(c: char)
  {
    var n := c as int;
    || (9 <= n <= 13) || (28 <= n <= 32) || n == 0x85 || n == 0xA0 || n == 0x1680
    || (0x2000 <= n <= 0x200A) || n == 0x2028 || n == 0x2029 || n == 0x202F
    || n == 0x205F || n == 0x3000
  }

  /** A word as `split()` produces it: non-empty, no whitespace. */
  predicate IsWord(w: string)
  {
    w != [] && forall i :: 0 <= i < |w| ==> !IsSpace(w[i])
  }

  /** Length of the run of non-whitespace characters at the end of `s`. */
  function TrailingWordLen(s: string): (n: nat)
    ensures n <= |s|
    ensures s != [] && !IsSpace(s[|s| - 1]) ==> n >= 1
  {
    if s == [] || IsSpace(s[|s| - 1]) then 0 else 1 + TrailingWordLen(s[..|s| - 1])
  }

  /** `s.split()`: the maximal runs of non-whitespace characters, in order. */
  function Split(s: string): seq<string>
    decreases |s|
  {
    if s == [] then []
    else if IsSpace(s[|s| - 1]) then Split(s[..|s| - 1])
    else
      var n := TrailingWordLen(s);
      Split(s[..|s| - n]) + [s[|s| - n..]]
  }

  /** `' '.join(ws)`. */
  function Join(ws: seq<string>): string
  {
    if ws == [] then ""
    else if |ws| == 1 then ws[0]
    else Join(ws[..|ws| - 1]) + " " + ws[|ws| - 1]
  }

  function LowerChar(c: char): char
  {
    if 'A' <= c <= 'Z' then (c as int + 32) as char else c
  }

  function UpperChar(c: char): char
  {
    if 'a' <= c <= 'z' then (c as int - 32) as char else c
  }

  /** `s.lower()`. */
  function Lower(s: string): (r: string)
    ensures |r| == |s|
  {
    seq(|s|, i requires 0 <= i < |s| => LowerChar(s[i]))
  }

  /** After `lower()` no ASCII capital remains, and every other character is kept. */
  lemma LowerMeaning(s: string)
    ensures forall i :: 0 <= i < |s| ==> !('A' <= Lower(s)[i] <= 'Z')
    ensures forall i :: 0 <= i < |s| && !('A' <= s[i] <= 'Z') ==> Lower(s)[i] == s[i]
  {
  }

  function LowerAll(ws: seq<string>): seq<string>
  {
    seq(|ws|, i requires 0 <= i < |ws| => Lower(ws[i]))
  }

  /** `s.rstrip()`. */
  function StripRight(s: string): (r: string)
    ensures |r| <= |s|
  {
    if s != [] && IsSpace(s[|s| - 1]) then StripRight(s[..|s| - 1]) else s
  }

  /** `s.lstrip()`. */
  function StripLeft(s: string): (r: string)
    ensures |r| <= |s|
  {
    if s != [] && IsSpace(s[0]) then StripLeft(s[1..]) else s
  }

  /** `s.strip()`. */
  function Strip(s: string): (r: string)
    ensures |r| <= |s|
  {
    StripLeft(StripRight(s))
  }

  /** `rstrip()` keeps the longest prefix that does not end in whitespace. */
  lemma {:induction false} StripRightMeaning(s: string)
    ensures var r := StripRight(s);
      && r == s[..|r|]
      && (r == [] || !IsSpace(r[|r| - 1]))
      && forall i :: |r| <= i < |s| ==> IsSpace(s[i])
  {
    if s != [] && IsSpace(s[|s| - 1]) {
      StripRightMeaning(s[..|s| - 1]);
    }
  }

  /** `lstrip()` keeps the longest suffix that does not start with whitespace. */
  lemma {:induction false} StripLeftMeaning(s: string)
    ensures var r := StripLeft(s);
      && r == s[|s| - |r|..]
      && (r == [] || !IsSpace(r[0]))
      && forall i :: 0 <= i < |s| - |r| ==> IsSpace(s[i])
  {
    if s != [] && IsSpace(s[0]) {
      StripLeftMeaning(s[1..]);
    }
  }

  /** `strip()` leaves whitespace at neither end. */
  lemma StripMeaning(s: string)
    ensures var r := Strip(s);
      r == [] || (!IsSpace(r[0]) && !IsSpace(r[|r| - 1]))
  {
    var m := StripRight(s);
    var r := StripLeft(m);
    StripRightMeaning(s);
    StripLeftMeaning(m);
    assert r != [] ==> r[|r| - 1] == m[|m| - 1];
  }

  /** The trailing run is made of non-whitespace characters. */
  lemma {:induction false} TrailingRunIsWord(s: string)
    requires s != [] && !IsSpace(s[|s| - 1])
    ensures IsWord(s[|s| - TrailingWordLen(s)..])
    ensures TrailingWordLen(s) < |s| ==> IsSpace(s[|s| - TrailingWordLen(s) - 1])
  {
    var init := s[..|s| - 1];
    if init != [] && !IsSpace(init[|init| - 1]) {
      TrailingRunIsWord(init);
    }
  }

  /** Every piece `split()` returns is a word. */
  lemma {:induction false} SplitGivesWords(s: string)
    ensures forall w :: w in Split(s) ==> IsWord(w)
    decreases |s|
  {
    if s == [] {
    } else if IsSpace(s[|s| - 1]) {
      SplitGivesWords(s[..|s| - 1]);
    } else {
      var n := TrailingWordLen(s);
      SplitGivesWords(s[..|s| - n]);
      TrailingRunIsWord(s);
    }
  }

  /** After a whitespace character, the trailing run is that of what follows it. */
  lemma {:induction false} TrailingAfterSpace(a: string, c: char, b: string)
    requires IsSpace(c)
    ensures TrailingWordLen(a + [c] + b) == TrailingWordLen(b)
    decreases |b|
  {
    var s := a + [c] + b;
    if b != [] {
      assert s[..|s| - 1] == a + [c] + b[..|b| - 1];
      if !IsSpace(b[|b| - 1]) {
        TrailingAfterSpace(a, c, b[..|b| - 1]);
      }
    }
  }

  /** One step of `Split` when the text ends in whitespace. */
  lemma SplitDropSpace(s: string)
    requires s != [] && IsSpace(s[|s| - 1])
    ensures Split(s) == Split(s[..|s| - 1])
  {
  }

  /** One step of `Split` when the text ends in a word. */
  lemma SplitLastWord(s: string, n: nat)
    requires s != [] && !IsSpace(s[|s| - 1]) && n == TrailingWordLen(s)
    ensures Split(s) == Split(s[..|s| - n]) + [s[|s| - n..]]
  {
  }

  /** A whitespace character separates: what lies on either side splits independently. */
  lemma {:induction false} SplitAtSpace(a: string, c: char, b: string)
    requires IsSpace(c)
    ensures Split(a + [c] + b) == Split(a) + Split(b)
    decreases |b|, 1
  {
    var s := a + [c] + b;
    if b == [] {
      assert s[..|s| - 1] == a;
      SplitDropSpace(s);
    } else if IsSpace(b[|b| - 1]) {
      SplitAtSpaceEndingInSpace(a, c, b);
    } else {
      SplitAtSpaceEndingInWord(a, c, b);
    }
  }

  lemma {:induction false} SplitAtSpaceEndingInSpace(a: string, c: char, b: string)
    requires IsSpace(c) && b != [] && IsSpace(b[|b| - 1])
    ensures Split(a + [c] + b) == Split(a) + Split(b)
    decreases |b|, 0
  {
    var s := a + [c] + b;
    var b' := b[..|b| - 1];
    assert s[..|s| - 1] == a + [c] + b';
    SplitDropSpace(s);
    SplitDropSpace(b);
    SplitAtSpace(a, c, b');
  }

  lemma {:induction false} SplitAtSpaceEndingInWord(a: string, c: char, b: string)
    requires IsSpace(c) && b != [] && !IsSpace(b[|b| - 1])
    ensures Split(a + [c] + b) == Split(a) + Split(b)
    decreases |b|, 0
  {
    var s := a + [c] + b;
    var n := TrailingWordLen(b);
    var b' := b[..|b| - n];
    var w := b[|b| - n..];
    assert Split(s) == Split(a + [c] + b') + [w] by {
      TrailingAfterSpace(a, c, b);
      SliceAfterSpace(a, c, b, n);
      SplitLastWord(s, n);
    }
    assert Split(b) == Split(b') + [w] by {
      SplitLastWord(b, n);
    }
    assert Split(a + [c] + b') == Split(a) + Split(b') by {
      SplitAtSpace(a, c, b');
    }
    ConcatAssoc(Split(a), Split(b'), [w]);
  }

  lemma ConcatAssoc<T>(x: seq<T>, y: seq<T>, z: seq<T>)
    ensures (x + y) + z == x + (y + z)
  {
  }

  lemma SliceAfterSpace(a: string, c: char, b: string, n: nat)
    requires n <= |b| && b != []
    ensures var s := a + [c] + b;
      && s[..|s| - n] == a + [c] + b[..|b| - n]
      && s[|s| - n..] == b[|b| - n..]
      && s[|s| - 1] == b[|b| - 1]
  {
  }

  /** A single word splits into itself. */
  lemma SplitWord(w: string)
    requires IsWord(w)
    ensures Split(w) == [w]
  {
    assert TrailingWordLen(w) == |w| by {
      WordRunIsWhole(w);
    }
    assert w[..0] == [] && w[0..] == w;
  }

  lemma {:induction false} WordRunIsWhole(w: string)
    requires forall i :: 0 <= i < |w| ==> !IsSpace(w[i])
    ensures TrailingWordLen(w) == |w|
  {
    if w != [] {
      WordRunIsWhole(w[..|w| - 1]);
    }
  }

  /** Round trip: joining words with single spaces and splitting again gives the words back. */
  lemma {:induction false} SplitJoin(ws: seq<string>)
    requires forall w :: w in ws ==> IsWord(w)
    ensures Split(Join(ws)) == ws
  {
    if ws == [] {
    } else if |ws| == 1 {
      SplitWord(ws[0]);
    } else {
      var init := ws[..|ws| - 1];
      SplitJoin(init);
      SplitAtSpace(Join(init), ' ', ws[|ws| - 1]);
      assert Join(init) + " " + ws[|ws| - 1] == Join(init) + [' '] + ws[|ws| - 1];
      SplitWord(ws[|ws| - 1]);
    }
  }

  /** Trailing whitespace does not change the split. */
  lemma {:induction false} SplitStripRight(s: string)
    ensures Split(StripRight(s)) == Split(s)
  {
    if s != [] && IsSpace(s[|s| - 1]) {
      SplitStripRight(s[..|s| - 1]);
    }
  }

  /** Leading whitespace does not change the split. */
  lemma {:induction false} SplitStripLeft(s: string)
    ensures Split(StripLeft(s)) == Split(s)
  {
    if s != [] && IsSpace(s[0]) {
      SplitStripLeft(s[1..]);
      SplitAtSpace([], s[0], s[1..]);
      assert [] + [s[0]] + s[1..] == s;
    }
  }

  /** `s.strip().split() == s.split()`. */
  lemma SplitStrip(s: string)
    ensures Split(Strip(s)) == Split(s)
  {
    SplitStripRight(s);
    SplitStripLeft(StripRight(s));
  }

  lemma LowerCharKeepsSpace(c: char)
    ensures IsSpace(LowerChar(c)) == IsSpace(c)
  {
  }

  lemma {:induction false} TrailingLower(s: string)
    ensures TrailingWordLen(Lower(s)) == TrailingWordLen(s)
  {
    if s != [] {
      assert Lower(s)[..|s| - 1] == Lower(s[..|s| - 1]);
      LowerCharKeepsSpace(s[|s| - 1]);
      TrailingLower(s[..|s| - 1]);
    }
  }

  /** Lower-casing before splitting is lower-casing every word after. */
  lemma {:induction false} SplitLower(s: string)
    ensures Split(Lower(s)) == LowerAll(Split(s))
    decreases |s|, 1
  {
    if s != [] {
      if IsSpace(s[|s| - 1]) {
        SplitLowerEndingInSpace(s);
      } else {
        SplitLowerEndingInWord(s);
      }
    }
  }

  lemma {:induction false} SplitLowerEndingInSpace(s: string)
    requires s != [] && IsSpace(s[|s| - 1])
    ensures Split(Lower(s)) == LowerAll(Split(s))
    decreases |s|, 0
  {
    var l := Lower(s);
    LowerCharKeepsSpace(s[|s| - 1]);
    assert l[..|l| - 1] == Lower(s[..|s| - 1]);
    SplitDropSpace(s);
    SplitDropSpace(l);
    SplitLower(s[..|s| - 1]);
  }

  lemma {:induction false} SplitLowerEndingInWord(s: string)
    requires s != [] && !IsSpace(s[|s| - 1])
    ensures Split(Lower(s)) == LowerAll(Split(s))
    decreases |s|, 0
  {
    var l := Lower(s);
    LowerCharKeepsSpace(s[|s| - 1]);
    var n := TrailingWordLen(s);
    TrailingLower(s);
    var init, word := s[..|s| - n], s[|s| - n..];
    LowerSlices(s, n);
    SplitLastWord(s, n);
    SplitLastWord(l, n);
    SplitLower(init);
    LowerAllSnoc(Split(init), word);
  }

  lemma LowerSlices(s: string, n: nat)
    requires n <= |s|
    ensures Lower(s)[..|s| - n] == Lower(s[..|s| - n])
    ensures Lower(s)[|s| - n..] == Lower(s[|s| - n..])
    ensures |s| > 0 ==> Lower(s)[|s| - 1] == LowerChar(s[|s| - 1])
  {
  }

  lemma LowerAllSnoc(ws: seq<string>, w: string)
    ensures LowerAll(ws + [w]) == LowerAll(ws) + [Lower(w)]
  {
  }

  lemma LowerAppend(a: string, b: string)
    ensures Lower(a + b) == Lower(a) + Lower(b)
  {
  }

  /** Lower-casing distributes over joining. */
  lemma {:induction false} LowerJoin(ws: seq<string>)
    ensures Lower(Join(ws)) == Join(LowerAll(ws))
  {
    if |ws| > 1 {
      var init := ws[..|ws| - 1];
      LowerJoin(init);
      assert LowerAll(ws)[..|ws| - 1] == LowerAll(init);
      LowerAppend(Join(init) + " ", ws[|ws| - 1]);
      LowerAppend(Join(init), " ");
    }
  }

  lemma LowerKeepsWord(w: string)
    requires IsWord(w)
    ensures IsWord(Lower(w))
  {
    forall i | 0 <= i < |w| ensures !IsSpace(Lower(w)[i]) {
      LowerCharKeepsSpace(w[i]);
    }
  }

  /** Text splits into no words exactly when it is all whitespace. */
  lemma {:induction false} SplitBlank(t: string)
    ensures Split(t) == [] <==> forall i :: 0 <= i < |t| ==> IsSpace(t[i])
    decreases |t|
  {
    if t != [] {
      var init := t[..|t| - 1];
      SplitBlank(init);
      if IsSpace(t[|t| - 1]) {
        assert forall i :: 0 <= i < |init| ==> init[i] == t[i];
      } else {
        var n := TrailingWordLen(t);
        SplitLastWord(t, n);
      }
    }
  }

  /** Joining one more word adds a separating space and the word. */
  lemma JoinSnoc(ws: seq<string>, w: string)
    ensures Join(ws + [w]) == if ws == [] then w else Join(ws) + " " + w
  {
    assert (ws + [w])[..|ws|] == ws;
  }

  lemma LowerIdempotent(s: string)
    ensures Lower(Lower(s)) == Lower(s)
  {
  }

  /** A word all of whose letters are lower case. */
  predicate IsLowerWord(w: string)
  {
    IsWord(w) && Lower(w) == w
  }

  /** A trailing space adds no word. */
  lemma SplitTrailingSpace(x: string)
    ensures Split(x + " ") == Split(x)
  {
    assert (x + " ")[..|x + " "| - 1] == x;
    SplitDropSpace(x + " ");
  }

  /** Lower-casing keeps the trailing space. */
  lemma LowerTrailingSpace(x: string)
    ensures Lower(x + " ") == Lower(x) + " "
  {
    LowerAppend(x, " ");
  }
}
