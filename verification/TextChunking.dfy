/** Splitting a document's text into bounded chunks for embedding: paragraphs, then
    sentences, then words, then fixed-width cuts, packed greedily. */
module TextChunking {
  import opened Texts
  import opened Packing

  // ---- Regular-expression splits ------------------------------------------------------

  datatype Boundary = Paragraph | Sentence | Word

  predicate Newline(c: char) { c == '\n' }

  predicate Padding(c: char) { c == ' ' || c == '\t' }

  predicate Terminator(c: char) { c == '.' || c == '!' || c == '?' }

  /** The end of the run of characters satisfying p that starts at i. */
  function RunEnd(s: string, p: char -> bool, i: nat): (j: nat)
    requires i <= |s|
    ensures i <= j <= |s| && (forall k | i <= k < j :: p(s[k])) && (j < |s| ==> !p(s[j]))
    decreases |s| - i
  {
    if i < |s| && p(s[i]) then RunEnd(s, p, i + 1) else i
  }

  /** Where the boundary matched at i ends; i itself when there is none. */
  function MatchEnd(b: Boundary, s: string, i: nat): (j: nat)
    requires i < |s|
    ensures i <= j <= |s| && Blank(s[i..j])
  {
    match b
    case Paragraph =>
      var j := if s[i] == '\n' then RunEnd(s, Padding, i + 1) else i;
      if i < j < |s| && s[j] == '\n' then RunEnd(s, Newline, j) else i
    case Sentence =>
      if i > 0 && Terminator(s[i - 1]) && IsSpace(s[i]) then RunEnd(s, IsSpace, i) else RunEnd(s, Newline, i)
    case Word => RunEnd(s, IsSpace, i)
  }

  /** The pieces between the leftmost matches from i on; the current piece began at `start`. */
  function SplitFrom(b: Boundary, s: string, start: nat, i: nat): (pieces: seq<string>)
    requires start <= i <= |s|
    decreases |s| - i
  {
    if i == |s| then [s[start..]]
    else if MatchEnd(b, s, i) == i then SplitFrom(b, s, start, i + 1)
    else [s[start..i]] + SplitFrom(b, s, MatchEnd(b, s, i), MatchEnd(b, s, i))
  }

  /** The split, its pieces stripped and the empty ones dropped. */
  function Stripped(pieces: seq<string>): seq<string> {
    if pieces == [] then []
    else (if Strip(pieces[0]) == "" then [] else [Strip(pieces[0])]) + Stripped(pieces[1..])
  }

  function NonEmpty(pieces: seq<string>): (kept: seq<string>)
    ensures forall k | 0 <= k < |kept| :: kept[k] != ""
  {
    if pieces == [] then [] else (if pieces[0] == "" then [] else [pieces[0]]) + NonEmpty(pieces[1..])
  }

  /** Every boundary is whitespace, so no split ever cuts or loses a word. */
  lemma {:induction false} SplitKeepsWords(b: Boundary, s: string, start: nat, i: nat)
    requires start <= i <= |s|
    ensures AllWords(SplitFrom(b, s, start, i)) == Words(s[start..])
    decreases |s| - i
  {
    hide IsSpace, Words, MatchEnd;
    if i < |s| {
      var j := MatchEnd(b, s, i);
      if j == i {
        SplitKeepsWords(b, s, start, i + 1);
      } else {
        SplitKeepsWords(b, s, j, j);
        assert s[start..] == s[start..i] + s[i..j] + s[j..];
        CutSpaces(s[start..i], s[i..j], s[j..]);
      }
    }
  }

  lemma {:induction false} StrippedKeepsWords(pieces: seq<string>)
    ensures AllWords(Stripped(pieces)) == AllWords(pieces)
    ensures forall k | 0 <= k < |Stripped(pieces)| :: Tidy(Stripped(pieces)[k])
  {
    if pieces != [] {
      StripMeans(pieces[0]);
      StrippedKeepsWords(pieces[1..]);
      AllWordsConcat(if Strip(pieces[0]) == "" then [] else [Strip(pieces[0])], Stripped(pieces[1..]));
    }
  }

  /** The split on whitespace gives exactly the words. */
  lemma {:induction false} WordSplitIsWords(s: string, start: nat, i: nat)
    requires start <= i <= |s| && Spaceless(s[start..i])
    ensures NonEmpty(SplitFrom(Word, s, start, i)) == Words(s[start..])
    decreases |s| - i
  {
    hide IsSpace, Words;
    if i == |s| {
      assert s[start..i] == s[start..];
      if start < i {
        WordIsItself(s[start..]);
      } else {
        BlankHasNoWords(s[start..]);
      }
    } else {
      var j := MatchEnd(Word, s, i);
      if j == i {
        assert s[start..i + 1] == s[start..i] + [s[i]];
        WordSplitIsWords(s, start, i + 1);
      } else {
        WordSplitIsWords(s, j, j);
        assert s[start..] == s[start..i] + s[i..j] + s[j..];
        CutSpaces(s[start..i], s[i..j], s[j..]);
        if start < i {
          WordIsItself(s[start..i]);
        } else {
          BlankHasNoWords(s[start..i]);
        }
      }
    }
  }

  // ---- Over-long words, sentences and paragraphs ------------------------------------------

  function HardSplit(word: string, max: nat): seq<string>
    requires max > 0
  {
    if |word| <= max then (if word == "" then [] else [word]) else [word[..max]] + HardSplit(word[max..], max)
  }

  /** Every word longer than max cut into windows of max characters; the others as they are. */
  function HardSplitAll(words: seq<string>, max: nat): seq<string>
    requires max > 0
  {
    if words == [] then [] else HardSplit(words[0], max) + HardSplitAll(words[1..], max)
  }

  function SentencePieces(sentence: string, max: nat): seq<string>
    requires max > 0
  {
    if |sentence| <= max then [sentence]
    else Pack(HardSplitAll(NonEmpty(SplitFrom(Word, sentence, 0, 0)), max), max, " ")
  }

  function AllSentencePieces(sentences: seq<string>, max: nat): seq<string>
    requires max > 0
  {
    if sentences == [] then [] else SentencePieces(sentences[0], max) + AllSentencePieces(sentences[1..], max)
  }

  function ParagraphPieces(paragraph: string, max: nat): seq<string>
    requires max > 0
  {
    if |paragraph| <= max then [paragraph]
    else Pack(AllSentencePieces(Stripped(SplitFrom(Sentence, paragraph, 0, 0)), max), max, " ")
  }

  function AllParagraphPieces(paragraphs: seq<string>, max: nat): seq<string>
    requires max > 0
  {
    if paragraphs == [] then [] else ParagraphPieces(paragraphs[0], max) + AllParagraphPieces(paragraphs[1..], max)
  }

  function Paragraphs(text: string): seq<string> { Stripped(SplitFrom(Paragraph, text, 0, 0)) }

  /** The chunks before the cap. */
  function Uncapped(text: string, max: nat): seq<string>
    requires max > 0
  {
    Pack(AllParagraphPieces(Paragraphs(text), max), max, "\n\n")
  }

  predicate AllFit(pieces: seq<string>, max: nat) {
    forall k | 0 <= k < |pieces| :: Fits(pieces[k], max)
  }

  predicate AreWords(words: seq<string>) {
    forall k | 0 <= k < |words| :: words[k] != "" && Spaceless(words[k])
  }

  lemma {:induction false} HardSplitFits(word: string, max: nat)
    requires max > 0 && Spaceless(word)
    ensures AllFit(HardSplit(word, max), max) && AreWords(HardSplit(word, max))
    ensures Flatten(HardSplit(word, max)) == word
    ensures forall k | 0 <= k < |HardSplit(word, max)| - 1 :: |HardSplit(word, max)[k]| == max
    ensures word != "" && |word| <= max ==> HardSplit(word, max) == [word]
  {
    hide IsSpace;
    if |word| > max {
      HardSplitFits(word[max..], max);
    }
  }

  lemma {:induction false} HardSplitAllFits(words: seq<string>, max: nat)
    requires max > 0 && AreWords(words)
    ensures AllFit(HardSplitAll(words, max), max) && AreWords(HardSplitAll(words, max))
    ensures Flatten(HardSplitAll(words, max)) == Flatten(words)
  {
    hide IsSpace, Fits;
    if words != [] {
      HardSplitFits(words[0], max);
      HardSplitAllFits(words[1..], max);
      FlattenConcat(HardSplit(words[0], max), HardSplitAll(words[1..], max));
    }
  }

  lemma {:induction false} HardSplitAllConcat(a: seq<string>, b: seq<string>, max: nat)
    requires max > 0
    ensures HardSplitAll(a + b, max) == HardSplitAll(a, max) + HardSplitAll(b, max)
  {
    hide HardSplit;
    if a == [] {
      assert a + b == b;
    } else {
      assert (a + b)[1..] == a[1..] + b;
      HardSplitAllConcat(a[1..], b, max);
    }
  }

  /** Cutting changes the words exactly when one of them is too long. */
  lemma {:induction false} UncutIffAllFit(words: seq<string>, max: nat)
    requires max > 0 && AreWords(words)
    ensures HardSplitAll(words, max) == words <==> forall k | 0 <= k < |words| :: |words[k]| <= max
  {
    hide IsSpace;
    if forall k | 0 <= k < |words| :: |words[k]| <= max {
      if words != [] {
        UncutIffAllFit(words[1..], max);
      }
    } else {
      HardSplitAllFits(words, max);
    }
  }

  lemma {:induction false} AllWordsOfWords(words: seq<string>)
    requires AreWords(words)
    ensures AllWords(words) == words
  {
    hide IsSpace, Words;
    if words != [] {
      WordIsItself(words[0]);
      AllWordsOfWords(words[1..]);
    }
  }

  lemma ShortIsUncut(s: string, max: nat)
    requires 0 < max && |s| <= max
    ensures HardSplitAll(Words(s), max) == Words(s)
  {
    hide IsSpace, Words, HardSplitAll;
    WordShape(s);
    UncutIffAllFit(Words(s), max);
  }

  lemma SentenceMeans(sentence: string, max: nat)
    requires max > 0 && Tidy(sentence)
    ensures AllFit(SentencePieces(sentence, max), max)
    ensures AllWords(SentencePieces(sentence, max)) == HardSplitAll(Words(sentence), max)
  {
    hide IsSpace, Words, HardSplitAll, PackFrom, SplitFrom, NonEmpty;
    if |sentence| <= max {
      ShortIsUncut(sentence, max);
    } else {
      WordSplitIsWords(sentence, 0, 0);
      assert sentence[0..] == sentence;
      var words := Words(sentence);
      WordShape(sentence);
      HardSplitAllFits(words, max);
      var safe := HardSplitAll(words, max);
      PackFromFits("", safe, max, " ");
      Separators();
      PackKeepsWords("", safe, max, " ");
      BlankHasNoWords("");
      AllWordsOfWords(safe);
    }
  }

  lemma Separators()
    ensures Blank(" ") && Blank("\n\n")
  {
  }

  lemma {:induction false} SentencesMean(sentences: seq<string>, max: nat)
    requires max > 0 && forall k | 0 <= k < |sentences| :: Tidy(sentences[k])
    ensures AllFit(AllSentencePieces(sentences, max), max)
    ensures AllWords(AllSentencePieces(sentences, max)) == HardSplitAll(AllWords(sentences), max)
  {
    hide Fits, Tidy, Words, SentencePieces;
    if sentences != [] {
      SentenceMeans(sentences[0], max);
      SentencesMean(sentences[1..], max);
      AllWordsConcat(SentencePieces(sentences[0], max), AllSentencePieces(sentences[1..], max));
      HardSplitAllConcat(Words(sentences[0]), AllWords(sentences[1..]), max);
    }
  }

  lemma ParagraphMeans(paragraph: string, max: nat)
    requires max > 0 && Tidy(paragraph)
    ensures AllFit(ParagraphPieces(paragraph, max), max)
    ensures AllWords(ParagraphPieces(paragraph, max)) == HardSplitAll(Words(paragraph), max)
  {
    hide IsSpace, Words, HardSplitAll, PackFrom, SplitFrom, Stripped;
    if |paragraph| <= max {
      ShortIsUncut(paragraph, max);
    } else {
      var split := SplitFrom(Sentence, paragraph, 0, 0);
      SplitKeepsWords(Sentence, paragraph, 0, 0);
      assert paragraph[0..] == paragraph;
      StrippedKeepsWords(split);
      SentencesMean(Stripped(split), max);
      var fitting := AllSentencePieces(Stripped(split), max);
      PackFromFits("", fitting, max, " ");
      Separators();
      PackKeepsWords("", fitting, max, " ");
      BlankHasNoWords("");
    }
  }

  lemma {:induction false} ParagraphsMean(paragraphs: seq<string>, max: nat)
    requires max > 0 && forall k | 0 <= k < |paragraphs| :: Tidy(paragraphs[k])
    ensures AllFit(AllParagraphPieces(paragraphs, max), max)
    ensures AllWords(AllParagraphPieces(paragraphs, max)) == HardSplitAll(AllWords(paragraphs), max)
  {
    hide Fits, Tidy, Words, ParagraphPieces;
    if paragraphs != [] {
      ParagraphMeans(paragraphs[0], max);
      ParagraphsMean(paragraphs[1..], max);
      AllWordsConcat(ParagraphPieces(paragraphs[0], max), AllParagraphPieces(paragraphs[1..], max));
      HardSplitAllConcat(Words(paragraphs[0]), AllWords(paragraphs[1..]), max);
    }
  }

  // ---- Where the boundaries are -----------------------------------------------------------

  /** Two newlines with nothing but blanks and tabs between them. */
  predicate BlankLineAt(s: string, i: nat, j: nat) {
    i < j < |s| && s[i] == '\n' && s[j] == '\n' && forall k | i < k < j :: s[k] == ' ' || s[k] == '\t'
  }

  ghost predicate HasBlankLine(s: string) {
    exists i: nat, j: nat :: BlankLineAt(s, i, j)
  }

  /** A paragraph boundary starts exactly where a blank line does, and takes every
      newline that follows. */
  lemma ParagraphBoundary(s: string, i: nat)
    requires i < |s|
    ensures MatchEnd(Paragraph, s, i) > i <==> exists j: nat :: BlankLineAt(s, i, j)
    ensures var e := MatchEnd(Paragraph, s, i); e > i && e < |s| ==> s[e - 1] == '\n' && s[e] != '\n'
  {
    if s[i] == '\n' {
      var j := RunEnd(s, Padding, i + 1);
      forall b: nat | BlankLineAt(s, i, b)
        ensures b == j
      {
      }
      assert j < |s| && s[j] == '\n' ==> BlankLineAt(s, i, j);
    }
  }

  /** A sentence boundary starts after a terminator at whitespace, or at a newline. */
  lemma SentenceBoundary(s: string, i: nat)
    requires i < |s|
    ensures MatchEnd(Sentence, s, i) > i <==>
            s[i] == '\n' || (i > 0 && (s[i - 1] == '.' || s[i - 1] == '!' || s[i - 1] == '?') && IsSpace(s[i]))
  {
  }

  /** The leftmost boundaries are all taken, so no piece contains a blank line. */
  lemma {:induction false} PiecesHaveNoBlankLine(s: string, start: nat, i: nat)
    requires start <= i <= |s| && forall k | start <= k < i :: MatchEnd(Paragraph, s, k) == k
    ensures forall p | p in SplitFrom(Paragraph, s, start, i) :: !HasBlankLine(p)
    decreases |s| - i
  {
    hide IsSpace, MatchEnd;
    if i == |s| {
      NoBlankLineWithin(s, start, i);
      assert s[start..i] == s[start..];
    } else if MatchEnd(Paragraph, s, i) == i {
      PiecesHaveNoBlankLine(s, start, i + 1);
    } else {
      var j := MatchEnd(Paragraph, s, i);
      NoBlankLineWithin(s, start, i);
      PiecesHaveNoBlankLine(s, j, j);
    }
  }

  lemma NoBlankLineWithin(s: string, start: nat, end: nat)
    requires start <= end <= |s| && forall k | start <= k < end :: MatchEnd(Paragraph, s, k) == k
    ensures !HasBlankLine(s[start..end])
  {
    hide MatchEnd;
    var p := s[start..end];
    forall a: nat, b: nat
      ensures !BlankLineAt(p, a, b)
    {
      if BlankLineAt(p, a, b) {
        assert forall k | a < k < b :: Padding(p[k]) && p[k] == s[start + k];
        assert forall k | start + a < k < start + b :: s[k] == p[k - start];
        assert BlankLineAt(s, start + a, start + b);
        ParagraphBoundary(s, start + a);
        assert false;
      }
    }
  }

  /** Paragraphs are stripped, not empty, and without blank lines. */
  lemma ParagraphsHaveNoBlankLine(text: string)
    ensures forall p | p in Paragraphs(text) :: Tidy(p) && !HasBlankLine(p)
  {
    var pieces := SplitFrom(Paragraph, text, 0, 0);
    PiecesHaveNoBlankLine(text, 0, 0);
    StrippedKeepsWords(pieces);
    StrippedWithin(pieces);
    forall p | p in Paragraphs(text)
      ensures !HasBlankLine(p)
    {
      var q, a, b :| q in pieces && 0 <= a <= b <= |q| && p == Cut(q, a, b);
      CutHasNoBlankLine(q, a, b);
    }
  }

  function Cut(s: string, a: nat, b: nat): string
    requires a <= b <= |s|
  {
    s[a..b]
  }

  lemma CutHasNoBlankLine(s: string, a: nat, b: nat)
    requires a <= b <= |s| && !HasBlankLine(s)
    ensures !HasBlankLine(Cut(s, a, b))
  {
    var p := Cut(s, a, b);
    forall i: nat, j: nat
      ensures !BlankLineAt(p, i, j)
    {
      if BlankLineAt(p, i, j) {
        assert forall k | i < k < j :: Padding(p[k]) && p[k] == s[a + k];
        assert forall k | a + i < k < a + j :: s[k] == p[k - a];
        assert BlankLineAt(s, a + i, a + j);
        assert false;
      }
    }
  }

  lemma {:induction false} StrippedWithin(pieces: seq<string>)
    ensures forall p | p in Stripped(pieces) :: exists q, a, b :: q in pieces && 0 <= a <= b <= |q| && p == Cut(q, a, b)
  {
    if pieces != [] {
      var q := pieces[0];
      StripCuts(q);
      StrippedWithin(pieces[1..]);
    }
  }

  lemma StripCuts(s: string)
    ensures exists a, b :: 0 <= a <= b <= |s| && Strip(s) == Cut(s, a, b)
  {
    LeftCuts(s);
    StripRightKeeps(StripLeft(s));
    var a := |s| - |StripLeft(s)|;
    assert Strip(s) == Cut(s, a, a + |Strip(s)|);
  }

  lemma {:induction false} LeftCuts(s: string)
    ensures |StripLeft(s)| <= |s| && StripLeft(s) == s[|s| - |StripLeft(s)|..]
  {
    hide IsSpace;
    if s != "" && IsSpace(s[0]) {
      LeftCuts(s[1..]);
    }
  }

  // ---- What the chunks hold -------------------------------------------------------------------

  /** The words of the chunks, in order, are the words of the text with over-long ones
      cut; every chunk is non-empty, stripped and within the limit. */
  lemma ChunksHoldTheText(text: string, max: nat)
    requires max > 0
    ensures AllFit(Uncapped(text, max), max)
    ensures AllWords(Uncapped(text, max)) == HardSplitAll(Words(text), max)
  {
    hide IsSpace, Words, HardSplitAll, PackFrom, SplitFrom, Stripped;
    SplitKeepsWords(Paragraph, text, 0, 0);
    assert text[0..] == text;
    StrippedKeepsWords(SplitFrom(Paragraph, text, 0, 0));
    ParagraphsMean(Paragraphs(text), max);
    var pieces := AllParagraphPieces(Paragraphs(text), max);
    PackFromFits("", pieces, max, "\n\n");
    Separators();
    PackKeepsWords("", pieces, max, "\n\n");
    BlankHasNoWords("");
  }

  /** Nothing but whitespace is lost, and no word is cut exactly when every word fits. */
  lemma ChunksAreLossless(text: string, max: nat)
    requires max > 0
    ensures NonSpace(Flatten(Uncapped(text, max))) == NonSpace(text)
    ensures AllWords(Uncapped(text, max)) == Words(text) <==> forall k | 0 <= k < |Words(text)| ::
              |Words(text)[k]| <= max
  {
    hide IsSpace, Words, HardSplitAll, Uncapped;
    var chunks := Uncapped(text, max);
    ChunksHoldTheText(text, max);
    AllWordsHoldAll(chunks);
    WordsHoldAll(text);
    WordShape(text);
    HardSplitAllFits(Words(text), max);
    UncutIffAllFit(Words(text), max);
  }

  /** A paragraph that fits is never cut: it lies whole within one chunk. */
  lemma ParagraphsStayWhole(text: string, max: nat, k: nat)
    requires max > 0 && k < |Paragraphs(text)| && |Paragraphs(text)[k]| <= max
    ensures SomeHolds(Uncapped(text, max), Paragraphs(text)[k])
  {
    hide IsSpace, PackFrom, SplitFrom, Stripped;
    StrippedKeepsWords(SplitFrom(Paragraph, text, 0, 0));
    ParagraphsMean(Paragraphs(text), max);
    var pieces := AllParagraphPieces(Paragraphs(text), max);
    FittingIsAPiece(Paragraphs(text), max, k);
    var j :| 0 <= j < |pieces| && pieces[j] == Paragraphs(text)[k];
    PackKeepsWhole("", pieces, max, "\n\n");
  }

  lemma {:induction false} FittingIsAPiece(paragraphs: seq<string>, max: nat, k: nat)
    requires max > 0 && k < |paragraphs| && |paragraphs[k]| <= max
    ensures paragraphs[k] in AllParagraphPieces(paragraphs, max)
  {
    if k > 0 {
      FittingIsAPiece(paragraphs[1..], max, k - 1);
    }
  }

  /** A text without words gives no chunk, so the early return for it is no special case. */
  lemma NoWordsNoChunks(text: string, max: nat)
    requires max > 0 && Strip(text) == ""
    ensures Uncapped(text, max) == []
  {
    hide IsSpace, Words, PackFrom, SplitFrom, Stripped, HardSplitAll;
    StripMeans(text);
    var paragraphs := Paragraphs(text);
    SplitKeepsWords(Paragraph, text, 0, 0);
    assert text[0..] == text;
    StrippedKeepsWords(SplitFrom(Paragraph, text, 0, 0));
    if paragraphs != [] {
      TidyHasWords(paragraphs[0]);
    }
    EmptyPack(max);
  }

  lemma EmptyPack(max: nat)
    requires max > 0
    ensures Pack(AllParagraphPieces([], max), max, "\n\n") == []
  {
  }

  lemma TidyHasWords(s: string)
    requires Tidy(s)
    ensures Words(s) != []
  {
    BlankHasNoWords(s);
  }

  // ---- The loops --------------------------------------------------------------------------------

  method PackPieces(pieces: seq<string>, max: nat, sep: string) returns (windows: seq<string>)
    ensures windows == Pack(pieces, max, sep)
  {
    windows := [];
    var current := "";
    var i := 0;
    while i < |pieces|
      invariant 0 <= i <= |pieces|
      invariant windows + PackFrom(current, pieces[i..], max, sep) == Pack(pieces, max, sep)
    {
      var piece := pieces[i];
      assert pieces[i..][0] == piece && pieces[i..][1..] == pieces[i + 1..];
      i := i + 1;
      if current == "" {
        current := piece;
        continue;
      }
      var candidate := current + sep + piece;
      if |candidate| <= max {
        current := candidate;
      } else {
        windows := windows + [current];
        current := piece;
      }
    }
    if current != "" {
      windows := windows + [current];
    }
  }

  method ChunkParagraph(paragraph: string, max: nat) returns (pieces: seq<string>)
    requires max > 0
    ensures pieces == ParagraphPieces(paragraph, max)
  {
    hide PackFrom, SplitFrom, Stripped, NonEmpty;
    if |paragraph| <= max {
      return [paragraph];
    }
    var sentences := Stripped(SplitFrom(Sentence, paragraph, 0, 0));
    var fitting: seq<string> := [];
    var i := 0;
    while i < |sentences|
      invariant 0 <= i <= |sentences|
      invariant fitting + AllSentencePieces(sentences[i..], max) == AllSentencePieces(sentences, max)
    {
      var sentence := sentences[i];
      assert sentences[i..][0] == sentence && sentences[i..][1..] == sentences[i + 1..];
      i := i + 1;
      if |sentence| <= max {
        fitting := fitting + [sentence];
        continue;
      }
      var words := NonEmpty(SplitFrom(Word, sentence, 0, 0));
      var safe := SafeWords(words, max);
      var packed := PackPieces(safe, max, " ");
      fitting := fitting + packed;
    }
    assert sentences[|sentences|..] == [] && fitting == AllSentencePieces(sentences, max);
    pieces := PackPieces(fitting, max, " ");
  }

  method SafeWords(words: seq<string>, max: nat) returns (safe: seq<string>)
    requires max > 0 && forall k | 0 <= k < |words| :: words[k] != ""
    ensures safe == HardSplitAll(words, max)
  {
    safe := [];
    for i := 0 to |words|
      invariant safe + HardSplitAll(words[i..], max) == HardSplitAll(words, max)
    {
      assert words[i..][0] == words[i] && words[i..][1..] == words[i + 1..];
      if |words[i]| <= max {
        safe := safe + [words[i]];
      } else {
        safe := safe + HardSplit(words[i], max);
      }
    }
  }

  datatype Chunking = Chunks(chunks: seq<string>) | InvalidLimit

  method ChunkTextForEmbedding(text: string, maxChars: int, maxChunks: int) returns (result: Chunking)
    ensures result.InvalidLimit? <==> maxChars <= 0 || maxChunks <= 0
    ensures result.Chunks? ==>
              var all := Uncapped(text, maxChars);
              && AllFit(result.chunks, maxChars)
              && AllWords(all) == HardSplitAll(Words(text), maxChars)
              && NonSpace(Flatten(all)) == NonSpace(text)
              && result.chunks == if |all| <= maxChunks then all else all[..maxChunks]
  {
    hide IsSpace, Words, HardSplitAll, PackFrom, SplitFrom, Stripped, Fits;
    if maxChars <= 0 || maxChunks <= 0 {
      return InvalidLimit;
    }
    ChunksHoldTheText(text, maxChars);
    ChunksAreLossless(text, maxChars);
    if Strip(text) == "" {
      NoWordsNoChunks(text, maxChars);
      return Chunks([]);
    }
    var paragraphs := Paragraphs(text);
    var pieces: seq<string> := [];
    for i := 0 to |paragraphs|
      invariant pieces + AllParagraphPieces(paragraphs[i..], maxChars) == AllParagraphPieces(paragraphs, maxChars)
    {
      assert paragraphs[i..][0] == paragraphs[i] && paragraphs[i..][1..] == paragraphs[i + 1..];
      var more := ChunkParagraph(paragraphs[i], maxChars);
      pieces := pieces + more;
    }
    assert paragraphs[|paragraphs|..] == [] && pieces == AllParagraphPieces(paragraphs, maxChars);
    var chunks := PackPieces(pieces, maxChars, "\n\n");
    assert chunks == Uncapped(text, maxChars);
    if |chunks| > maxChunks {
      chunks := chunks[..maxChunks];
    }
    result := Chunks(chunks);
  }
}
