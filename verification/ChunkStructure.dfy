/** How the chunks are made up: paragraphs stay whole when they fit, else their sentences,
    else their words, as a relation between the text and its chunks. */
module ChunkStructure {
  import opened Texts
  import opened Packing
  import opened TextChunking

  // ---- Stretches between boundaries -----------------------------------------------------------

  predicate SentenceBreak(s: string, i: nat)
    requires i < |s|
  {
    s[i] == '\n' || (i > 0 && (s[i - 1] == '.' || s[i - 1] == '!' || s[i - 1] == '?') && IsSpace(s[i]))
  }

  ghost predicate ParagraphBreak(s: string, i: nat) {
    exists j: nat :: BlankLineAt(s, i, j)
  }

  ghost predicate Break(b: Boundary, s: string, i: nat)
    requires i < |s|
  {
    match b
    case Paragraph => ParagraphBreak(s, i)
    case Sentence => SentenceBreak(s, i)
    case Word => IsSpace(s[i])
  }

  lemma BreakMeans(b: Boundary, s: string, i: nat)
    requires i < |s|
    ensures Break(b, s, i) <==> MatchEnd(b, s, i) > i
  {
    match b
    case Paragraph => ParagraphBoundary(s, i);
    case Sentence => SentenceBoundary(s, i);
    case Word =>
  }

  /** From one boundary, or the start of the text, to the next, or its end. */
  ghost predicate Stretch(b: Boundary, s: string, i: nat, j: nat) {
    && i <= j <= |s|
    && (i == 0 || Break(b, s, i - 1)) && (j == |s| || Break(b, s, j))
    && forall k | i <= k < j :: !Break(b, s, k)
  }

  lemma {:induction false} LeftSkips(spaces: string, s: string)
    requires Blank(spaces)
    ensures StripLeft(spaces + s) == StripLeft(s)
  {
    hide IsSpace;
    if spaces == "" {
      assert spaces + s == s;
    } else {
      assert (spaces + s)[1..] == spaces[1..] + s;
      LeftSkips(spaces[1..], s);
    }
  }

  lemma {:induction false} BlankStrips(s: string)
    requires Blank(s)
    ensures Strip(s) == ""
  {
    assert s + "" == s;
    LeftSkips(s, "");
  }

  lemma StripFrom(s: string, i: nat, start: nat, j: nat)
    requires i <= start <= j <= |s| && Blank(s[i..start])
    ensures Strip(s[i..j]) == Strip(s[start..j])
  {
    assert s[i..j] == s[i..start] + s[start..j];
    LeftSkips(s[i..start], s[start..j]);
  }

  lemma {:induction false} StrippedHas(pieces: seq<string>, k: nat)
    requires k < |pieces| && Strip(pieces[k]) != ""
    ensures Strip(pieces[k]) in Stripped(pieces)
  {
    hide IsSpace;
    if k > 0 {
      StrippedHas(pieces[1..], k - 1);
    }
  }

  /** Scanning from i, with the current piece begun at start, comes to the stretch. */
  lemma {:induction false} SplitReaches(b: Boundary, s: string, start: nat, i: nat, from: nat, to: nat)
    requires start <= i <= |s| && i <= to && Stretch(b, s, from, to) && Strip(s[from..to]) != ""
    requires from > i || (from <= start && Blank(s[from..start]))
    ensures Strip(s[from..to]) in Stripped(SplitFrom(b, s, start, i))
    decreases |s| - i
  {
    hide IsSpace, MatchEnd, Break, Strip, Blank;
    var pieces := SplitFrom(b, s, start, i);
    if i == |s| {
      StripFrom(s, from, start, to);
      assert s[start..] == s[start..to];
      StrippedHas(pieces, 0);
    } else {
      BreakMeans(b, s, i);
      var j := MatchEnd(b, s, i);
      if j == i {
        SplitReaches(b, s, start, i + 1, from, to);
      } else if from <= start {
        assert to == i;
        StripFrom(s, from, start, to);
        StrippedHas(pieces, 0);
      } else {
        InMatch(b, s, i, from, to);
        SplitReaches(b, s, j, j, from, to);
        StrippedTail(pieces);
      }
    }
  }

  lemma StrippedTail(pieces: seq<string>)
    requires pieces != []
    ensures forall p | p in Stripped(pieces[1..]) :: p in Stripped(pieces)
  {
  }

  /** A stretch with content is not swallowed by the match before it. */
  lemma InMatch(b: Boundary, s: string, i: nat, from: nat, to: nat)
    requires i < |s| && i < from <= to <= |s| && Strip(s[from..to]) != "" && MatchEnd(b, s, i) > i
    ensures var j := MatchEnd(b, s, i); j <= to && (from > j || Blank(s[from..j]))
  {
    hide IsSpace, Strip;
    var j := MatchEnd(b, s, i);
    assert forall k | i <= k < j :: s[k] == s[i..j][k - i];
    if j > to {
      BlankStrips(s[from..to]);
    }
  }

  lemma StretchIsAPiece(b: Boundary, s: string, i: nat, j: nat)
    requires Stretch(b, s, i, j) && Strip(s[i..j]) != ""
    ensures Strip(s[i..j]) in Stripped(SplitFrom(b, s, 0, 0))
  {
    hide Stretch, Strip, Stripped, SplitFrom;
    assert i == 0 ==> Blank(s[i..0]);
    StretchInRange(b, s, i, j);
    SplitReaches(b, s, 0, 0, i, j);
  }

  lemma StretchInRange(b: Boundary, s: string, i: nat, j: nat)
    requires Stretch(b, s, i, j)
    ensures i <= j <= |s|
  {
  }

  // ---- What stays whole ---------------------------------------------------------------------------

  lemma StretchIsAParagraph(text: string, i: nat, j: nat)
    requires Stretch(Paragraph, text, i, j) && Strip(text[i..j]) != ""
    ensures exists k :: 0 <= k < |Paragraphs(text)| && Paragraphs(text)[k] == Strip(text[i..j])
  {
    hide Stretch, Strip, Stripped, SplitFrom;
    StretchInRange(Paragraph, text, i, j);
    StretchIsAPiece(Paragraph, text, i, j);
    assert Strip(text[i..j]) in Paragraphs(text);
  }

  /** What stands between two blank lines, stripped, lies whole within one chunk if it fits. */
  lemma ParagraphStaysWhole(text: string, max: nat, i: nat, j: nat)
    requires max > 0 && Stretch(Paragraph, text, i, j) && 0 < |Strip(text[i..j])| <= max
    ensures SomeHolds(Uncapped(text, max), Strip(text[i..j]))
  {
    hide Stretch, Strip, Uncapped, Paragraphs;
    StretchInRange(Paragraph, text, i, j);
    StretchIsAParagraph(text, i, j);
    var k :| 0 <= k < |Paragraphs(text)| && Paragraphs(text)[k] == Strip(text[i..j]);
    ParagraphsStayWhole(text, max, k);
  }

  /** So does what stands between two sentence boundaries of a paragraph. */
  lemma SentenceStaysWhole(text: string, max: nat, i: nat, j: nat, from: nat, to: nat)
    requires max > 0 && Stretch(Paragraph, text, i, j)
    requires var p := Strip(text[i..j]); Stretch(Sentence, p, from, to) && 0 < |Strip(p[from..to])| <= max
    ensures SomeHolds(Uncapped(text, max), Strip(Strip(text[i..j])[from..to]))
  {
    hide Stretch, Strip, Stripped, SplitFrom, Uncapped, Paragraphs, ParagraphPieces, Within;
    StretchInRange(Paragraph, text, i, j);
    var p := Strip(text[i..j]);
    StretchInRange(Sentence, p, from, to);
    var q := Strip(p[from..to]);
    NothingInNothing(p, from, to);
    StretchIsAParagraph(text, i, j);
    var k :| 0 <= k < |Paragraphs(text)| && Paragraphs(text)[k] == p;
    ParagraphsHaveNoBlankLine(text);
    var pieces := ParagraphPieces(p, max);
    SentenceInPieces(p, max, from, to);
    var n :| 0 <= n < |pieces| && Within(q, pieces[n]);
    PieceInChunks(text, max, k, n);
    var m :| 0 <= m < |Uncapped(text, max)| && Within(pieces[n], Uncapped(text, max)[m]);
    WithinTrans(q, pieces[n], Uncapped(text, max)[m]);
  }

  lemma NothingInNothing(p: string, from: nat, to: nat)
    requires from <= to <= |p| && Strip(p[from..to]) != ""
    ensures p != ""
  {
  }

  lemma SentenceInPieces(p: string, max: nat, from: nat, to: nat)
    requires max > 0 && Tidy(p) && Stretch(Sentence, p, from, to) && 0 < |Strip(p[from..to])| <= max
    ensures SomeHolds(ParagraphPieces(p, max), Strip(p[from..to]))
  {
    hide Stretch, Strip, Stripped, SplitFrom, AllSentencePieces, PackFrom, Within;
    StretchInRange(Sentence, p, from, to);
    var q := Strip(p[from..to]);
    if |p| <= max {
      StripWithin(p, from, to);
      assert ParagraphPieces(p, max)[0] == p;
    } else {
      var sentences := Stripped(SplitFrom(Sentence, p, 0, 0));
      StretchIsAPiece(Sentence, p, from, to);
      var k :| 0 <= k < |sentences| && sentences[k] == q;
      FittingSentence(sentences, max, k);
      StrippedKeepsWords(SplitFrom(Sentence, p, 0, 0));
      SentencesMean(sentences, max);
      var fitting := AllSentencePieces(sentences, max);
      var n :| 0 <= n < |fitting| && fitting[n] == q;
      PackKeepsWhole("", fitting, max, " ");
    }
  }

  lemma {:induction false} FittingSentence(sentences: seq<string>, max: nat, k: nat)
    requires max > 0 && k < |sentences| && |sentences[k]| <= max
    ensures sentences[k] in AllSentencePieces(sentences, max)
  {
    if k > 0 {
      FittingSentence(sentences[1..], max, k - 1);
    }
  }

  lemma StripWithin(p: string, from: nat, to: nat)
    requires from <= to <= |p|
    ensures Within(Strip(p[from..to]), p)
  {
    hide Strip;
    var s := p[from..to];
    StripCuts(s);
    var a, b :| 0 <= a <= b <= |s| && Strip(s) == Cut(s, a, b);
    assert forall k | a <= k < b :: s[k] == p[from + k];
    assert p[from + a..from + b] == s[a..b];
    assert At(Strip(p[from..to]), p, from + a);
  }

  lemma PieceInChunks(text: string, max: nat, k: nat, n: nat)
    requires max > 0 && k < |Paragraphs(text)| && n < |ParagraphPieces(Paragraphs(text)[k], max)|
    ensures SomeHolds(Uncapped(text, max), ParagraphPieces(Paragraphs(text)[k], max)[n])
  {
    hide Stripped, SplitFrom, PackFrom, ParagraphPieces, Within, AllParagraphPieces;
    var piece := ParagraphPieces(Paragraphs(text)[k], max)[n];
    StrippedKeepsWords(SplitFrom(Paragraph, text, 0, 0));
    ParagraphsMean(Paragraphs(text), max);
    var pieces := AllParagraphPieces(Paragraphs(text), max);
    PieceIsListed(Paragraphs(text), max, k, n);
    var m :| 0 <= m < |pieces| && pieces[m] == piece;
    PackKeepsWhole("", pieces, max, "\n\n");
  }

  lemma {:induction false} PieceIsListed(paragraphs: seq<string>, max: nat, k: nat, n: nat)
    requires max > 0 && k < |paragraphs| && n < |ParagraphPieces(paragraphs[k], max)|
    ensures ParagraphPieces(paragraphs[k], max)[n] in AllParagraphPieces(paragraphs, max)
  {
    hide ParagraphPieces;
    if k > 0 {
      PieceIsListed(paragraphs[1..], max, k - 1, n);
    }
  }

  // ---- The whole structure ------------------------------------------------------------------------

  function Sentences(paragraph: string): seq<string> { Stripped(SplitFrom(Sentence, paragraph, 0, 0)) }

  /** A sentence that fits is one piece; of another the words, over-long ones cut, are packed. */
  ghost predicate OfSentence(pieces: seq<string>, sentence: string, max: nat)
    requires max > 0
  {
    if |sentence| <= max then pieces == [sentence]
    else Packed(pieces, HardSplitAll(Words(sentence), max), max, " ")
  }

  ghost predicate OfSentences(parts: seq<seq<string>>, sentences: seq<string>, max: nat)
    requires max > 0
  {
    |parts| == |sentences| && forall k | 0 <= k < |parts| :: OfSentence(parts[k], sentences[k], max)
  }

  /** A paragraph that fits is one piece; of another the sentences' pieces are packed. */
  ghost predicate OfParagraph(pieces: seq<string>, paragraph: string, max: nat)
    requires max > 0
  {
    if |paragraph| <= max then pieces == [paragraph]
    else exists parts :: OfSentences(parts, Sentences(paragraph), max) && Packed(pieces, Concat(parts), max, " ")
  }

  ghost predicate OfParagraphs(parts: seq<seq<string>>, paragraphs: seq<string>, max: nat)
    requires max > 0
  {
    |parts| == |paragraphs| && forall k | 0 <= k < |parts| :: OfParagraph(parts[k], paragraphs[k], max)
  }

  lemma SentenceStructure(sentence: string, max: nat)
    requires max > 0
    ensures OfSentence(SentencePieces(sentence, max), sentence, max)
  {
    hide IsSpace, Words, HardSplitAll, PackFrom, SplitFrom, NonEmpty, Packed;
    if |sentence| > max {
      WordSplitIsWords(sentence, 0, 0);
      assert sentence[0..] == sentence;
      WordShape(sentence);
      HardSplitAllFits(Words(sentence), max);
      PackedIffPack(SentencePieces(sentence, max), HardSplitAll(Words(sentence), max), max, " ");
    }
  }

  function SentenceParts(sentences: seq<string>, max: nat): seq<seq<string>>
    requires max > 0
  {
    if sentences == [] then [] else [SentencePieces(sentences[0], max)] + SentenceParts(sentences[1..], max)
  }

  lemma {:induction false} SentencesStructure(sentences: seq<string>, max: nat)
    requires max > 0
    ensures OfSentences(SentenceParts(sentences, max), sentences, max)
    ensures Concat(SentenceParts(sentences, max)) == AllSentencePieces(sentences, max)
  {
    hide SentencePieces, OfSentence;
    if sentences != [] {
      SentenceStructure(sentences[0], max);
      SentencesStructure(sentences[1..], max);
      assert SentenceParts(sentences, max)[1..] == SentenceParts(sentences[1..], max);
    }
  }

  lemma ParagraphStructure(paragraph: string, max: nat)
    requires max > 0 && Tidy(paragraph)
    ensures OfParagraph(ParagraphPieces(paragraph, max), paragraph, max)
  {
    hide IsSpace, PackFrom, SplitFrom, Stripped, Packed, OfSentences, AllSentencePieces, SentenceParts;
    if |paragraph| > max {
      var sentences := Sentences(paragraph);
      StrippedKeepsWords(SplitFrom(Sentence, paragraph, 0, 0));
      SentencesMean(sentences, max);
      SentencesStructure(sentences, max);
      PackedIffPack(ParagraphPieces(paragraph, max), AllSentencePieces(sentences, max), max, " ");
    }
  }

  function ParagraphParts(paragraphs: seq<string>, max: nat): seq<seq<string>>
    requires max > 0
  {
    if paragraphs == [] then [] else [ParagraphPieces(paragraphs[0], max)] + ParagraphParts(paragraphs[1..], max)
  }

  lemma {:induction false} ParagraphsStructure(paragraphs: seq<string>, max: nat)
    requires max > 0 && forall k | 0 <= k < |paragraphs| :: Tidy(paragraphs[k])
    ensures OfParagraphs(ParagraphParts(paragraphs, max), paragraphs, max)
    ensures Concat(ParagraphParts(paragraphs, max)) == AllParagraphPieces(paragraphs, max)
  {
    hide ParagraphPieces, OfParagraph, Tidy;
    if paragraphs != [] {
      ParagraphStructure(paragraphs[0], max);
      ParagraphsStructure(paragraphs[1..], max);
      assert ParagraphParts(paragraphs, max)[1..] == ParagraphParts(paragraphs[1..], max);
    }
  }

  /** The chunks are the paragraphs' pieces, packed eagerly with a blank line between them. */
  lemma ChunksAreStructured(text: string, max: nat)
    requires max > 0
    ensures exists parts ::
              OfParagraphs(parts, Paragraphs(text), max) && Packed(Uncapped(text, max), Concat(parts), max, "\n\n")
  {
    hide IsSpace, PackFrom, SplitFrom, Stripped, Packed, OfParagraphs, AllParagraphPieces, ParagraphParts;
    StrippedKeepsWords(SplitFrom(Paragraph, text, 0, 0));
    ParagraphsMean(Paragraphs(text), max);
    ParagraphsStructure(Paragraphs(text), max);
    PackedIffPack(Uncapped(text, max), AllParagraphPieces(Paragraphs(text), max), max, "\n\n");
  }
}
