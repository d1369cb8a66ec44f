/** The OCR text comparison engine: normalisation, word sets and their differences, the rounded
    similarity percentage, the membership-based line diff, the caps on the returned lists, and
    the lookup of a record's before and after screenshots. OCR itself is a parameter. */
module Comparison {
  import opened Seqs
  import opened Text
  import opened Bytes
  import opened Results
  import opened Artifacts

  /** No upper-case letter, no whitespace but single spaces, no two spaces in a row. */
  ghost predicate Spaced(s: string)
  {
    NoUpper(s) && SingleSpaced(s)
  }

  /** What `normalizeText` produces: a spaced text with no whitespace at either end. */
  ghost predicate NormalForm(s: string)
  {
    Spaced(s) && (s != [] ==> !IsSpace(s[0]) && !IsSpace(s[|s| - 1]))
  }

  /** `normalizeText`: lower-case, collapse whitespace runs to one space, trim. */
  function NormalizeText(text: string): string
  {
    Trim(CollapseSpaces(Lower(text)))
  }

  lemma SpacedSlice(s: string, k: nat, n: nat)
    requires Spaced(s) && k + n <= |s|
    ensures Spaced(s[k..k + n])
  {
    var r := s[k..k + n];
    forall i | 0 <= i < |r|
      ensures !IsUpper(r[i]) && (IsSpace(r[i]) ==> r[i] == ' ')
    {
      assert r[i] == s[k + i];
    }
    forall i, j | 0 <= i < j < |r| && j == i + 1 && r[i] == ' '
      ensures !IsSpace(r[j])
    {
      assert r[i] == s[k + i] && r[j] == s[k + j];
    }
  }

  lemma NormalizeTextNormalForm(text: string)
    ensures NormalForm(NormalizeText(text))
  {
    var l := Lower(text);
    assert NoUpper(l);
    CollapseSpacesSpaced(l);
    CollapseSpacesKeepsLower(l);
    SpacedTrim(CollapseSpaces(l));
  }

  /** Trimming keeps a text spaced: what it leaves is a slice. */
  lemma SpacedTrim(c: string)
    requires Spaced(c)
    ensures Spaced(Trim(c))
  {
    SpacedTrimStart(c);
    SpacedTrimEnd(TrimStart(c));
  }

  lemma SpacedTrimStart(c: string)
    requires Spaced(c)
    ensures Spaced(TrimStart(c))
  {
    var t := TrimStart(c);
    SpacedSlice(c, |c| - |t|, |t|);
    assert c[|c| - |t|..|c| - |t| + |t|] == t;
  }

  lemma SpacedTrimEnd(t: string)
    requires Spaced(t)
    ensures Spaced(TrimEnd(t))
  {
    var r := TrimEnd(t);
    SpacedSlice(t, 0, |r|);
    assert t[0..|r|] == r;
  }

  /** A text already in normal form is left unchanged. */
  lemma NormalFormFixed(s: string)
    requires NormalForm(s)
    ensures NormalizeText(s) == s
  {
    assert Lower(s) == s;
    CollapseSpacesNoOp(s);
    TrimNoOp(s);
  }

  lemma NormalizeTextIdempotent(text: string)
    ensures NormalizeText(NormalizeText(text)) == NormalizeText(text)
  {
    NormalizeTextNormalForm(text);
    NormalFormFixed(NormalizeText(text));
  }

  /** A word: non-empty and free of whitespace. */
  predicate IsWord(w: string)
  {
    w != [] && forall i :: 0 <= i < |w| ==> !IsSpace(w[i])
  }

  /** `text.split(/\s+/).filter(w => w.length > 0)`. */
  function Words(text: string): (ws: seq<string>)
    ensures forall i :: 0 <= i < |ws| ==> IsWord(ws[i])
  {
    var pieces := SplitOnSpaces(text);
    var ws := Filter(pieces, (w: string) => |w| > 0);
    assert forall i :: 0 <= i < |ws| ==> ws[i] in pieces;
    ws
  }

  /** The words of a normalised text, joined by single spaces, give the text back: splitting loses
      nothing but the separators. */
  lemma WordsJoin(text: string)
    requires NormalForm(text)
    ensures Join(Words(text), ' ') == text
  {
    var pieces := SplitOnSpaces(text);
    if text != [] {
      SplitOnSpacesNonEmpty(text);
      FilterAll(pieces, (w: string) => |w| > 0);
    } else {
      assert pieces == [[]];
    }
    SplitOnSpacesJoin(text);
    CollapseSpacesNoOp(text);
  }

  /** The words the comparison works on: those of the normalised text. */
  function TextWords(text: string): seq<string>
  {
    Words(NormalizeText(text))
  }

  /** `[...new Set(words)].filter(w => !otherSet.has(w))`. */
  function Missing(words: seq<string>, other: seq<string>): seq<string>
  {
    Filter(Dedup(words), (w: string) => w !in other)
  }

  /** `[...new Set(words)].filter(w => otherSet.has(w))`. */
  function Shared(words: seq<string>, other: seq<string>): seq<string>
  {
    Filter(Dedup(words), (w: string) => w in other)
  }

  lemma MissingSet(words: seq<string>, other: seq<string>)
    ensures ToSet(Missing(words, other)) == ToSet(words) - ToSet(other)
    ensures NoDup(Missing(words, other))
  {
    FilterNoDup(Dedup(words), (w: string) => w !in other);
    var m := Missing(words, other);
    forall w | w in ToSet(words) - ToSet(other) ensures w in ToSet(m) {
      var i :| 0 <= i < |words| && words[i] == w;
      var d := Dedup(words);
      var j :| 0 <= j < |d| && d[j] == w;
    }
  }

  lemma SharedSet(words: seq<string>, other: seq<string>)
    ensures ToSet(Shared(words, other)) == ToSet(words) * ToSet(other)
    ensures NoDup(Shared(words, other))
    ensures |Shared(words, other)| == |ToSet(words) * ToSet(other)|
  {
    FilterNoDup(Dedup(words), (w: string) => w in other);
    var m := Shared(words, other);
    forall w | w in ToSet(words) * ToSet(other) ensures w in ToSet(m) {
      var i :| 0 <= i < |words| && words[i] == w;
      var d := Dedup(words);
      var j :| 0 <= j < |d| && d[j] == w;
    }
    NoDupCard(m);
  }

  /** Added, removed and common words are the set differences and the intersection of the two
      word sets, each listed once, and no word is in two of the lists. */
  lemma WordListsAlgebra(beforeWords: seq<string>, afterWords: seq<string>)
    ensures ToSet(Missing(afterWords, beforeWords)) == ToSet(afterWords) - ToSet(beforeWords)
    ensures ToSet(Missing(beforeWords, afterWords)) == ToSet(beforeWords) - ToSet(afterWords)
    ensures ToSet(Shared(beforeWords, afterWords)) == ToSet(beforeWords) * ToSet(afterWords)
    ensures NoDup(Missing(afterWords, beforeWords)) && NoDup(Missing(beforeWords, afterWords))
    ensures NoDup(Shared(beforeWords, afterWords))
    ensures ToSet(Missing(afterWords, beforeWords)) * ToSet(Missing(beforeWords, afterWords)) == {}
    ensures ToSet(Missing(afterWords, beforeWords)) * ToSet(Shared(beforeWords, afterWords)) == {}
    ensures ToSet(Missing(beforeWords, afterWords)) * ToSet(Shared(beforeWords, afterWords)) == {}
  {
    MissingSet(afterWords, beforeWords);
    MissingSet(beforeWords, afterWords);
    SharedSet(beforeWords, afterWords);
  }

  /** `Math.round(common / total * 100 * 100) / 100` in hundredths of a percent: the nearest
      integer to 10000 * common / total, halves rounded up; 100 % when there are no words. */
  function SimilarityHundredths(common: nat, total: nat): (h: nat)
    requires common <= total
    ensures h <= 10000
    ensures total > 0 ==> 2 * total * h <= 20000 * common + total < 2 * total * h + 2 * total
    ensures total == 0 || common == total ==> h == 10000
    ensures total > 0 && common == 0 ==> h == 0
  {
    if total == 0 then 10000
    else
      var n, d := 20000 * common + total, 2 * total;
      var h := n / d;
      DivSpec(n, d);
      assert n < d * 10001;
      QuotientBound(n, d, h, 10001);
      if common == total then
        QuotientIs(n, d, 10000);
        h
      else if common == 0 then
        QuotientIs(n, d, 0);
        h
      else
        h
  }

  lemma DivSpec(n: nat, d: nat)
    requires d > 0
    ensures d * (n / d) <= n < d * (n / d) + d
  {
    assert n == d * (n / d) + n % d;
  }

  lemma MulMono(d: nat, a: nat, b: nat)
    requires a <= b
    ensures d * a <= d * b
  {
    assert d * b == d * a + d * (b - a);
  }

  /** A quotient below which the dividend lies is an upper bound of the division. */
  lemma QuotientBound(n: nat, d: nat, q: nat, m: nat)
    requires d > 0 && q == n / d && n < d * m
    ensures q < m
  {
    DivSpec(n, d);
    if q >= m {
      MulMono(d, m, q);
    }
  }

  /** The one q with d * q <= n < d * q + d is n / d. */
  lemma QuotientIs(n: nat, d: nat, q: nat)
    requires d > 0 && d * q <= n < d * q + d
    ensures n / d == q
  {
    DivSpec(n, d);
    var q' := n / d;
    if q' < q {
      MulMono(d, q' + 1, q);
    } else if q' > q {
      MulMono(d, q + 1, q');
    }
  }

  /** `commonWords.length`: the number of distinct words the lists share. */
  function CommonCount(beforeWords: seq<string>, afterWords: seq<string>): (n: nat)
    ensures n == |ToSet(beforeWords) * ToSet(afterWords)|
    ensures n <= |beforeWords| && n <= |afterWords|
  {
    SharedSet(beforeWords, afterWords);
    UnionCard(beforeWords, afterWords);
    |Shared(beforeWords, afterWords)|
  }

  /** `similarityPercentage` rounded to two decimals: common words over distinct words of both
      lists, as a percentage. */
  function WordSimilarity(beforeWords: seq<string>, afterWords: seq<string>): (p: real)
    ensures 0.0 <= p <= 100.0
  {
    SharedSet(beforeWords, afterWords);
    UnionCard(beforeWords, afterWords);
    SimilarityHundredths(|Shared(beforeWords, afterWords)|, |ToSet(beforeWords + afterWords)|) as real / 100.0
  }

  /** `lines.map(line => line.trim())`. */
  function TrimAll(pieces: seq<string>): (ts: seq<string>)
    ensures |ts| == |pieces|
    ensures forall i :: 0 <= i < |ts| ==> ts[i] == Trim(pieces[i]) && Unpadded(ts[i])
  {
    seq(|pieces|, i requires 0 <= i < |pieces| => Trim(pieces[i]))
  }

  /** The lines of an OCR text: split on newlines, trimmed, empty ones dropped. */
  function Lines(text: string): (ls: seq<string>)
    ensures forall i :: 0 <= i < |ls| ==> ls[i] != [] && Unpadded(ls[i])
  {
    var trimmed := TrimAll(SplitOn(text, '\n'));
    var ls := Filter(trimmed, (l: string) => |l| > 0);
    assert forall i :: 0 <= i < |ls| ==> ls[i] in trimmed;
    ls
  }

  /** `others.some(o => normalizeText(o) === normalizeText(line))`. */
  predicate Matches(line: string, others: seq<string>)
  {
    exists j :: 0 <= j < |others| && NormalizeText(others[j]) == NormalizeText(line)
  }

  /** `lines.filter(line => !others.some(...))`: the lines with no counterpart among `others`. */
  function Unmatched(lines: seq<string>, others: seq<string>): seq<string>
  {
    Filter(lines, (l: string) => !Matches(l, others))
  }

  /** The line diff keeps, in order and with every repetition, exactly the lines whose
      normalisation equals that of no line on the other side. */
  lemma UnmatchedSpec(lines: seq<string>, others: seq<string>)
    ensures IsSubseq(Unmatched(lines, others), lines)
    ensures forall l :: multiset(Unmatched(lines, others))[l] == if Matches(l, others) then 0 else multiset(lines)[l]
    ensures forall i :: 0 <= i < |Unmatched(lines, others)| ==> !Matches(Unmatched(lines, others)[i], others)
  {
    FilterIsSubseq(lines, (l: string) => !Matches(l, others));
    forall l ensures multiset(Unmatched(lines, others))[l] == if Matches(l, others) then 0 else multiset(lines)[l] {
      FilterMultiplicity(lines, (l: string) => !Matches(l, others), l);
    }
  }

  datatype ComparisonResult = ComparisonResult(
    similarity: real,
    beforeText: string,
    afterText: string,
    beforeWordCount: nat,
    afterWordCount: nat,
    commonWordCount: nat,
    addedWords: seq<string>,
    removedWords: seq<string>,
    addedLines: seq<string>,
    removedLines: seq<string>,
    comparedAt: string)

  /** How many added and removed words and lines the result carries. */
  const WordCap: nat := 50
  const LineCap: nat := 20

  /** The body of `compareScreenshots` once both texts are extracted; `comparedAt` is the clock. */
  function CompareTexts(beforeText: string, afterText: string, comparedAt: string): (r: ComparisonResult)
    ensures r.beforeText == beforeText && r.afterText == afterText && r.comparedAt == comparedAt
    ensures r.commonWordCount <= r.beforeWordCount && r.commonWordCount <= r.afterWordCount
    ensures 0.0 <= r.similarity <= 100.0
  {
    var beforeWords, afterWords := TextWords(beforeText), TextWords(afterText);
    ComparisonResult(
      WordSimilarity(beforeWords, afterWords),
      beforeText,
      afterText,
      |beforeWords|,
      |afterWords|,
      CommonCount(beforeWords, afterWords),
      Take(Missing(afterWords, beforeWords), WordCap),
      Take(Missing(beforeWords, afterWords), WordCap),
      Take(Unmatched(Lines(afterText), Lines(beforeText)), LineCap),
      Take(Unmatched(Lines(beforeText), Lines(afterText)), LineCap),
      comparedAt)
  }

  function Min(a: nat, b: nat): nat
  {
    if a <= b then a else b
  }

  /** The union of the word sets holds the common ones and is at most as large as both lists. */
  lemma UnionCard(beforeWords: seq<string>, afterWords: seq<string>)
    ensures ToSet(beforeWords + afterWords) == ToSet(beforeWords) + ToSet(afterWords)
    ensures |ToSet(beforeWords) * ToSet(afterWords)| <= |ToSet(beforeWords + afterWords)|
    ensures |ToSet(beforeWords) * ToSet(afterWords)| <= |ToSet(beforeWords)| <= |beforeWords|
    ensures |ToSet(beforeWords) * ToSet(afterWords)| <= |ToSet(afterWords)| <= |afterWords|
  {
    var b, a := ToSet(beforeWords), ToSet(afterWords);
    assert ToSet(beforeWords + afterWords) == b + a;
    assert b * a <= b + a;
    SubsetCard(b * a, b + a);
    SubsetCard(b * a, b);
    SubsetCard(b * a, a);
    SetCard(beforeWords);
    SetCard(afterWords);
  }

  /** The counts: words with repetitions on each side, and the distinct words both share. */
  lemma CompareTextsCounts(beforeText: string, afterText: string, comparedAt: string)
    ensures var r := CompareTexts(beforeText, afterText, comparedAt);
      && r.beforeWordCount == |TextWords(beforeText)| && r.afterWordCount == |TextWords(afterText)|
      && r.commonWordCount == |ToSet(TextWords(beforeText)) * ToSet(TextWords(afterText))|
  {
    SharedSet(TextWords(beforeText), TextWords(afterText));
  }

  /** Each returned word list is the first entries, at most 50, of the uncapped list. */
  lemma CompareTextsWordCaps(beforeText: string, afterText: string, comparedAt: string)
    ensures var r := CompareTexts(beforeText, afterText, comparedAt);
      var added, removed := Missing(TextWords(afterText), TextWords(beforeText)), Missing(TextWords(beforeText), TextWords(afterText));
      && |r.addedWords| == Min(WordCap, |added|) && r.addedWords == added[..|r.addedWords|]
      && |r.removedWords| == Min(WordCap, |removed|) && r.removedWords == removed[..|r.removedWords|]
  {
  }

  /** Each returned line list is the first entries, at most 20, of the uncapped list. */
  lemma CompareTextsLineCaps(beforeText: string, afterText: string, comparedAt: string)
    ensures var r := CompareTexts(beforeText, afterText, comparedAt);
      var added, removed := Unmatched(Lines(afterText), Lines(beforeText)), Unmatched(Lines(beforeText), Lines(afterText));
      && |r.addedLines| == Min(LineCap, |added|) && r.addedLines == added[..|r.addedLines|]
      && |r.removedLines| == Min(LineCap, |removed|) && r.removedLines == removed[..|r.removedLines|]
  {
  }

  /** The similarity, times 100, is the integer nearest to 10000 * common / union (halves up),
      where union counts the distinct words of both lists; it is 100 when neither has words. */
  lemma SimilarityRounding(beforeWords: seq<string>, afterWords: seq<string>)
    ensures var p, c, t := WordSimilarity(beforeWords, afterWords), |ToSet(beforeWords) * ToSet(afterWords)|, |ToSet(beforeWords) + ToSet(afterWords)|;
      var h := (p * 100.0).Floor;
      && h as real == p * 100.0
      && (t == 0 ==> p == 100.0)
      && (t > 0 ==> 2 * t * h <= 20000 * c + t < 2 * t * h + 2 * t)
  {
    UnionCard(beforeWords, afterWords);
    SharedSet(beforeWords, afterWords);
    var hs := SimilarityHundredths(|Shared(beforeWords, afterWords)|, |ToSet(beforeWords + afterWords)|);
    var p := WordSimilarity(beforeWords, afterWords);
    assert p == hs as real / 100.0;
    assert p * 100.0 == hs as real;
    assert (p * 100.0).Floor == hs;
  }

  /** Identical word sets give 100 %, whatever the order and repetition of the words. */
  lemma SimilarityIdentical(beforeWords: seq<string>, afterWords: seq<string>)
    requires ToSet(beforeWords) == ToSet(afterWords)
    ensures WordSimilarity(beforeWords, afterWords) == 100.0
  {
    UnionCard(beforeWords, afterWords);
    SharedSet(beforeWords, afterWords);
    assert ToSet(beforeWords) * ToSet(afterWords) == ToSet(beforeWords) + ToSet(afterWords);
  }

  /** Word lists with nothing in common, not both empty, give 0 %. */
  lemma SimilarityDisjoint(beforeWords: seq<string>, afterWords: seq<string>)
    requires ToSet(beforeWords) * ToSet(afterWords) == {}
    requires beforeWords + afterWords != []
    ensures WordSimilarity(beforeWords, afterWords) == 0.0
  {
    UnionCard(beforeWords, afterWords);
    SharedSet(beforeWords, afterWords);
    assert (beforeWords + afterWords)[0] in ToSet(beforeWords + afterWords);
  }

  /** The similarity does not depend on which list is the before one. */
  lemma SimilaritySymmetric(beforeWords: seq<string>, afterWords: seq<string>)
    ensures WordSimilarity(beforeWords, afterWords) == WordSimilarity(afterWords, beforeWords)
  {
    SharedSet(beforeWords, afterWords);
    SharedSet(afterWords, beforeWords);
    assert ToSet(beforeWords) * ToSet(afterWords) == ToSet(afterWords) * ToSet(beforeWords);
    UnionCard(beforeWords, afterWords);
    UnionCard(afterWords, beforeWords);
    assert ToSet(beforeWords + afterWords) == ToSet(afterWords + beforeWords);
  }

  lemma SwapWordLists(beforeText: string, afterText: string, comparedAt: string)
    ensures var r, s := CompareTexts(beforeText, afterText, comparedAt), CompareTexts(afterText, beforeText, comparedAt);
      s.addedWords == r.removedWords && s.removedWords == r.addedWords
  {
  }

  lemma SwapLineLists(beforeText: string, afterText: string, comparedAt: string)
    ensures var r, s := CompareTexts(beforeText, afterText, comparedAt), CompareTexts(afterText, beforeText, comparedAt);
      s.addedLines == r.removedLines && s.removedLines == r.addedLines
  {
  }

  lemma SwapCommonCount(beforeText: string, afterText: string, comparedAt: string)
    ensures CompareTexts(afterText, beforeText, comparedAt).commonWordCount == CompareTexts(beforeText, afterText, comparedAt).commonWordCount
  {
    CommonCountSymmetric(TextWords(beforeText), TextWords(afterText));
  }

  lemma CommonCountSymmetric(beforeWords: seq<string>, afterWords: seq<string>)
    ensures CommonCount(beforeWords, afterWords) == CommonCount(afterWords, beforeWords)
  {
    assert ToSet(beforeWords) * ToSet(afterWords) == ToSet(afterWords) * ToSet(beforeWords);
  }

  /** Swapping the texts swaps added and removed words and lines and the two word counts, and
      leaves the common count and the similarity unchanged. */
  lemma CompareSwap(beforeText: string, afterText: string, comparedAt: string)
    ensures var r, s := CompareTexts(beforeText, afterText, comparedAt), CompareTexts(afterText, beforeText, comparedAt);
      && s.addedWords == r.removedWords && s.removedWords == r.addedWords
      && s.addedLines == r.removedLines && s.removedLines == r.addedLines
      && s.beforeWordCount == r.afterWordCount && s.afterWordCount == r.beforeWordCount
      && s.commonWordCount == r.commonWordCount && s.similarity == r.similarity
  {
    SwapWordLists(beforeText, afterText, comparedAt);
    SwapLineLists(beforeText, afterText, comparedAt);
    SwapCommonCount(beforeText, afterText, comparedAt);
    SimilaritySymmetric(TextWords(beforeText), TextWords(afterText));
  }

  /** Every line matches itself, so a line list has no unmatched line against itself. */
  lemma UnmatchedSelf(lines: seq<string>)
    ensures Unmatched(lines, lines) == []
  {
    forall i | 0 <= i < |lines| ensures Matches(lines[i], lines) {
    }
    FilterNone(lines, (l: string) => !Matches(l, lines));
  }

  /** No word of a list is missing from the list itself. */
  lemma MissingSelf(words: seq<string>)
    ensures Missing(words, words) == []
  {
    FilterNone(Dedup(words), (w: string) => w !in words);
  }

  lemma SelfWordLists(text: string, comparedAt: string)
    ensures var r := CompareTexts(text, text, comparedAt); r.addedWords == [] && r.removedWords == []
  {
    MissingSelf(TextWords(text));
  }

  lemma CommonCountSelf(words: seq<string>)
    ensures CommonCount(words, words) == |ToSet(words)|
  {
    assert ToSet(words) * ToSet(words) == ToSet(words);
  }

  lemma SelfCommonCount(text: string, comparedAt: string)
    ensures CompareTexts(text, text, comparedAt).commonWordCount == |ToSet(TextWords(text))|
  {
    var w := TextWords(text);
    CommonCountSelf(w);
    assert CompareTexts(text, text, comparedAt).commonWordCount == CommonCount(w, w);
  }

  /** Comparing a text with itself finds nothing added or removed and 100 % similarity. */
  lemma CompareSelf(text: string, comparedAt: string)
    ensures var r := CompareTexts(text, text, comparedAt);
      && r.addedWords == [] && r.removedWords == [] && r.addedLines == [] && r.removedLines == []
      && r.similarity == 100.0 && r.commonWordCount == |ToSet(TextWords(text))|
  {
    SimilarityIdentical(TextWords(text), TextWords(text));
    SelfWordLists(text, comparedAt);
    SelfCommonCount(text, comparedAt);
    UnmatchedSelf(Lines(text));
  }

  /** Why a record comparison fails. The paths are file names inside the screenshots directory. */
  datatype CompareError =
    | BeforeScreenshotNotFound(path: string)
    | AfterScreenshotNotFound(path: string)
    | ImageNotFound(path: string)
    | OcrFailed(path: string)

  /** `extractTextFromImage`: the image must exist; `recognize` (Tesseract) may fail; the text it
      recognises is trimmed. */
  function ExtractText(path: string, files: map<string, seq<Byte>>, recognize: seq<Byte> -> Option<string>): (r: Result<string, CompareError>)
    ensures path !in files ==> r == Failure(ImageNotFound(path))
    ensures path in files && recognize(files[path]).None? ==> r == Failure(OcrFailed(path))
    ensures r.Success? <==> path in files && recognize(files[path]).Some?
    ensures r.Success? ==> r.value == Trim(recognize(files[path]).value)
    ensures r.Success? && r.value != [] ==> !IsSpace(r.value[0]) && !IsSpace(r.value[|r.value| - 1])
  {
    if path !in files then Failure(ImageNotFound(path))
    else match recognize(files[path])
      case None => Failure(OcrFailed(path))
      case Some(text) => Success(Trim(text))
  }

  /** `compareRecordScreenshots`: look up `{object}.{record}.before.png`, then
      `{object}.{record}.after.png`, and compare their OCR texts. A missing before-file is
      reported ahead of a missing after-file; the before image is read first. */
  function CompareRecordScreenshots(objectApiName: string, recordId: string, files: map<string, seq<Byte>>,
                                    recognize: seq<Byte> -> Option<string>, comparedAt: string): (r: Result<ComparisonResult, CompareError>)
    ensures var before := ArtifactFilename(objectApiName, recordId, "before");
      before !in files ==> r == Failure(BeforeScreenshotNotFound(before))
    ensures var before, after := ArtifactFilename(objectApiName, recordId, "before"), ArtifactFilename(objectApiName, recordId, "after");
      before in files && after !in files ==> r == Failure(AfterScreenshotNotFound(after))
    ensures var before, after := ArtifactFilename(objectApiName, recordId, "before"), ArtifactFilename(objectApiName, recordId, "after");
      r.Success? <==> before in files && after in files && recognize(files[before]).Some? && recognize(files[after]).Some?
    ensures var before, after := ArtifactFilename(objectApiName, recordId, "before"), ArtifactFilename(objectApiName, recordId, "after");
      r.Success? ==> r.value == CompareTexts(Trim(recognize(files[before]).value), Trim(recognize(files[after]).value), comparedAt)
  {
    var before := ArtifactFilename(objectApiName, recordId, "before");
    var after := ArtifactFilename(objectApiName, recordId, "after");
    if before !in files then Failure(BeforeScreenshotNotFound(before))
    else if after !in files then Failure(AfterScreenshotNotFound(after))
    else match ExtractText(before, files, recognize)
      case Failure(e) => Failure(e)
      case Success(beforeText) =>
        match ExtractText(after, files, recognize)
          case Failure(e) => Failure(e)
          case Success(afterText) => Success(CompareTexts(beforeText, afterText, comparedAt))
  }
}
