/** Whitespace, and a text as the list of its words. */
module Texts {
  /** The characters both `\s` and strip() treat as whitespace. */
  predicate IsSpace(c: char) {
    || '\t' <= c <= '\r' || '\U{1C}' <= c <= ' ' || c == '\U{85}' || c == '\U{A0}' || c == '\U{1680}'
    || '\U{2000}' <= c <= '\U{200A}' || c == '\U{2028}' || c == '\U{2029}' || c == '\U{202F}' || c == '\U{205F}'
    || c == '\U{3000}'
  }

  predicate Blank(s: string) { forall k | 0 <= k < |s| :: IsSpace(s[k]) }

  predicate Spaceless(s: string) { forall k | 0 <= k < |s| :: !IsSpace(s[k]) }

  /** Non-empty, and neither end is whitespace. */
  predicate Tidy(s: string) { s != "" && !IsSpace(s[0]) && !IsSpace(s[|s| - 1]) }

  function StripLeft(s: string): string {
    if s != "" && IsSpace(s[0]) then StripLeft(s[1..]) else s
  }

  function StripRight(s: string): string {
    if s != "" && IsSpace(s[|s| - 1]) then StripRight(s[..|s| - 1]) else s
  }

  function Strip(s: string): string { StripRight(StripLeft(s)) }

  /** The length of the run of non-whitespace that s starts with. */
  function WordEnd(s: string): (n: nat)
    ensures n <= |s| && Spaceless(s[..n]) && (n < |s| ==> IsSpace(s[n]))
  {
    if s == "" || IsSpace(s[0]) then 0 else
      var n := 1 + WordEnd(s[1..]);
      assert s[..n] == [s[0]] + s[1..][..n - 1];
      n
  }

  /** The maximal runs of non-whitespace, in order. */
  function Words(s: string): seq<string>
    decreases |s|
  {
    if s == "" then []
    else if IsSpace(s[0]) then Words(s[1..])
    else [s[..WordEnd(s)]] + Words(s[WordEnd(s)..])
  }

  function AllWords(pieces: seq<string>): seq<string> {
    if pieces == [] then [] else Words(pieces[0]) + AllWords(pieces[1..])
  }

  function Flatten(pieces: seq<string>): string {
    if pieces == [] then "" else pieces[0] + Flatten(pieces[1..])
  }

  function NonSpace(s: string): string {
    if s == "" then "" else (if IsSpace(s[0]) then "" else [s[0]]) + NonSpace(s[1..])
  }

  lemma {:induction false} WordEndConcat(a: string, b: string)
    requires Spaceless(a) && (b == "" || IsSpace(b[0]))
    ensures WordEnd(a + b) == |a|
  {
    hide IsSpace;
    if a == "" {
      assert a + b == b;
    } else {
      assert (a + b)[1..] == a[1..] + b;
      WordEndConcat(a[1..], b);
    }
  }

  lemma CutInside(a: string, b: string, n: nat)
    requires n <= |a|
    ensures a + b == a[..n] + (a[n..] + b) && (a + b)[..n] == a[..n] && (a + b)[n..] == a[n..] + b
    ensures a[n..] + b == if n < |a| then a[n..] + b else b
  {
    assert a == a[..n] + a[n..];
  }

  lemma FirstWord(a: string, b: string)
    requires a != "" && !IsSpace(a[0]) && (b == "" || IsSpace(a[|a| - 1]) || IsSpace(b[0]))
    ensures var n := WordEnd(a);
            0 < n && Words(a + b) == [a[..n]] + Words(a[n..] + b) && Words(a) == [a[..n]] + Words(a[n..])
  {
    hide IsSpace, Words;
    WordsUnfold(a);
    var n := WordEnd(a);
    CutInside(a, b, n);
    WordEndConcat(a[..n], a[n..] + b);
    assert WordEnd(a + b) == n;
    WordsUnfold(a + b);
  }

  lemma WordsUnfold(s: string)
    requires s != "" && !IsSpace(s[0])
    ensures WordEnd(s) > 0 && Words(s) == [s[..WordEnd(s)]] + Words(s[WordEnd(s)..])
  {
    hide IsSpace;
  }

  /** Joining two texts keeps their words apart as long as whitespace touches the seam. */
  lemma {:induction false} WordsConcat(a: string, b: string)
    requires a == "" || b == "" || IsSpace(a[|a| - 1]) || IsSpace(b[0])
    ensures Words(a + b) == Words(a) + Words(b)
    decreases |a|
  {
    hide IsSpace;
    if a == "" {
      assert a + b == b;
    } else if IsSpace(a[0]) {
      assert (a + b)[1..] == a[1..] + b;
      WordsConcat(a[1..], b);
    } else {
      var n := WordEnd(a);
      FirstWord(a, b);
      WordsConcat(a[n..], b);
    }
  }

  /** Cutting whitespace out of a text leaves the words on both sides. */
  lemma CutSpaces(a: string, spaces: string, b: string)
    requires spaces != "" && Blank(spaces)
    ensures Words(a + spaces + b) == Words(a) + Words(b)
  {
    hide IsSpace, Words;
    assert IsSpace(spaces[0]) && IsSpace(spaces[|spaces| - 1]);
    WordsConcat(a, spaces);
    WordsConcat(a + spaces, b);
    BlankHasNoWords(spaces);
  }

  lemma {:induction false} BlankHasNoWords(s: string)
    ensures Blank(s) <==> Words(s) == []
    decreases |s|
  {
    if s != "" && IsSpace(s[0]) {
      BlankHasNoWords(s[1..]);
      assert Blank(s[1..]) ==> Blank(s) by {
        assert forall k | 0 < k < |s| :: s[k] == s[1..][k - 1];
      }
      assert Blank(s) ==> Blank(s[1..]);
    }
  }

  lemma {:induction false} StripLeftKeeps(s: string)
    ensures Words(StripLeft(s)) == Words(s)
    ensures StripLeft(s) == "" || !IsSpace(StripLeft(s)[0])
  {
    if s != "" && IsSpace(s[0]) {
      StripLeftKeeps(s[1..]);
    }
  }

  lemma {:induction false} StripRightKeeps(s: string)
    ensures Words(StripRight(s)) == Words(s)
    ensures StripRight(s) <= s && (StripRight(s) == "" || !IsSpace(StripRight(s)[|StripRight(s)| - 1]))
    decreases |s|
  {
    if s != "" && IsSpace(s[|s| - 1]) {
      var init := s[..|s| - 1];
      StripRightKeeps(init);
      assert s == init + [s[|s| - 1]];
      WordsConcat(init, [s[|s| - 1]]);
      BlankHasNoWords([s[|s| - 1]]);
    }
  }

  /** strip() loses no word, and leaves a tidy text, or nothing when there was no word. */
  lemma StripMeans(s: string)
    ensures Words(Strip(s)) == Words(s)
    ensures Strip(s) == "" <==> Words(s) == []
    ensures Strip(s) != "" ==> Tidy(Strip(s))
  {
    StripLeftKeeps(s);
    StripRightKeeps(StripLeft(s));
    if Strip(s) != "" {
      assert Strip(s)[0] == StripLeft(s)[0];
      BlankHasNoWords(Strip(s));
    }
  }

  lemma {:induction false} WordShape(s: string)
    ensures forall k | 0 <= k < |Words(s)| :: Words(s)[k] != "" && Spaceless(Words(s)[k]) && |Words(s)[k]| <= |s|
    decreases |s|
  {
    if s != "" {
      if IsSpace(s[0]) {
        WordShape(s[1..]);
      } else {
        WordShape(s[WordEnd(s)..]);
      }
    }
  }

  lemma WordIsItself(w: string)
    requires w != "" && Spaceless(w)
    ensures Words(w) == [w]
  {
    WordEndConcat(w, "");
    assert w + "" == w && w[..|w|] == w && w[|w|..] == "";
  }

  lemma {:induction false} AllWordsConcat(a: seq<string>, b: seq<string>)
    ensures AllWords(a + b) == AllWords(a) + AllWords(b)
  {
    if a == [] {
      assert a + b == b;
    } else {
      assert (a + b)[1..] == a[1..] + b;
      AllWordsConcat(a[1..], b);
    }
  }

  lemma {:induction false} FlattenConcat(a: seq<string>, b: seq<string>)
    ensures Flatten(a + b) == Flatten(a) + Flatten(b)
  {
    if a == [] {
      assert a + b == b;
    } else {
      assert (a + b)[1..] == a[1..] + b;
      FlattenConcat(a[1..], b);
    }
  }

  lemma {:induction false} NonSpaceConcat(a: string, b: string)
    ensures NonSpace(a + b) == NonSpace(a) + NonSpace(b)
  {
    if a == "" {
      assert a + b == b;
    } else {
      assert (a + b)[1..] == a[1..] + b;
      NonSpaceConcat(a[1..], b);
    }
  }

  lemma {:induction false} SpacelessIsAll(s: string)
    requires Spaceless(s)
    ensures NonSpace(s) == s
  {
    if s != "" {
      SpacelessIsAll(s[1..]);
    }
  }

  /** The words hold every non-whitespace character, in order. */
  lemma {:induction false} WordsHoldAll(s: string)
    ensures Flatten(Words(s)) == NonSpace(s)
    decreases |s|
  {
    if s != "" {
      if IsSpace(s[0]) {
        WordsHoldAll(s[1..]);
      } else {
        var n := WordEnd(s);
        WordsHoldAll(s[n..]);
        SpacelessIsAll(s[..n]);
        NonSpaceConcat(s[..n], s[n..]);
        assert s == s[..n] + s[n..];
      }
    }
  }

  lemma {:induction false} AllWordsHoldAll(pieces: seq<string>)
    ensures Flatten(AllWords(pieces)) == NonSpace(Flatten(pieces))
  {
    if pieces != [] {
      AllWordsHoldAll(pieces[1..]);
      WordsHoldAll(pieces[0]);
      FlattenConcat(Words(pieces[0]), AllWords(pieces[1..]));
      NonSpaceConcat(pieces[0], Flatten(pieces[1..]));
    }
  }
}
