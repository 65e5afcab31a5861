/** The word index: a one-pass tokenizer with a hash posting map per file, and the aggregated
    index over many files. */
module WordIndex {
  import opened Collections
  import opened Options

  /** A decoded rune, or a byte that is not valid UTF-8. */
  datatype Rune = Scalar(c: char) | Invalid

  type Text = seq<Rune>

  /** The Unicode letter and digit classes, and the hash of a word. */
  datatype Alphabet = Alphabet(isLetter: char -> bool, isDigit: char -> bool, hash: Text -> nat)

  ghost predicate ValidAlphabet(a: Alphabet) {
    !a.isLetter('\n') && !a.isDigit('\n')
  }

  predicate IsStart(a: Alphabet, r: Rune) {
    r.Scalar? && (r.c == '_' || a.isLetter(r.c))
  }

  predicate IsCont(a: Alphabet, r: Rune) {
    r.Scalar? && (r.c == '_' || a.isLetter(r.c) || a.isDigit(r.c))
  }

  datatype Word = Word(text: Text, line: nat)

  // ---------- what the words of a text are ----------

  /** All runes from i up to, not including, j continue a word. */
  ghost predicate AllCont(a: Alphabet, src: Text, i: nat, j: nat)
    requires i <= j <= |src|
  {
    forall k :: i <= k < j ==> IsCont(a, src[k])
  }

  /** p is the first start-rune of its maximal run of continue-runes. */
  ghost predicate WordStart(a: Alphabet, src: Text, p: nat) {
    && p < |src| && IsStart(a, src[p])
    && forall t: nat :: t < p && IsStart(a, src[t]) ==> !AllCont(a, src, t, p)
  }

  /** e ends the run of continue-runes that starts at p. */
  ghost predicate RunEnds(a: Alphabet, src: Text, p: nat, e: nat) {
    && p <= e <= |src| && AllCont(a, src, p, e)
    && (e < |src| ==> !IsCont(a, src[e]))
  }

  function RunEnd(a: Alphabet, src: Text, p: nat): (e: nat)
    requires p <= |src|
    ensures RunEnds(a, src, p, e)
    decreases |src| - p
  {
    if p < |src| && IsCont(a, src[p]) then RunEnd(a, src, p + 1) else p
  }

  function Newlines(src: Text, i: nat): nat
    requires i <= |src|
  {
    if i == 0 then 0 else Newlines(src, i - 1) + if src[i - 1] == Scalar('\n') then 1 else 0
  }

  /** The word that starts at p: up to the end of the run, on the line that p is on. */
  ghost function WordAt(a: Alphabet, src: Text, p: nat): Word
    requires p <= |src|
  {
    Word(src[p..RunEnd(a, src, p)], 1 + Newlines(src, p))
  }

  /** The words that start before position k, in order: the plain scan. */
  ghost function WordsBefore(a: Alphabet, src: Text, k: nat): seq<Word>
    requires k <= |src|
  {
    if k == 0 then []
    else WordsBefore(a, src, k - 1) + if WordStart(a, src, k - 1) then [WordAt(a, src, k - 1)] else []
  }

  ghost function WordsOf(a: Alphabet, src: Text): seq<Word> {
    WordsBefore(a, src, |src|)
  }

  lemma {:induction false} RunEndUnique(a: Alphabet, src: Text, p: nat, e: nat)
    requires RunEnds(a, src, p, e)
    ensures RunEnd(a, src, p) == e
    decreases |src| - p
  {
    if p < e {
      assert IsCont(a, src[p]);
      RunEndUnique(a, src, p + 1, e);
    }
  }

  /** Between words no start-rune is left behind in the run that the cursor stands in. */
  ghost predicate AtBoundary(a: Alphabet, src: Text, i: nat) {
    && i <= |src|
    && (i < |src| && IsCont(a, src[i]) ==>
        forall t: nat :: t < i && IsStart(a, src[t]) ==> !AllCont(a, src, t, i))
  }

  /** Skipping a rune that starts no word loses no word. */
  lemma SkipRune(a: Alphabet, src: Text, i: nat)
    requires AtBoundary(a, src, i) && i < |src| && !IsStart(a, src[i])
    ensures AtBoundary(a, src, i + 1)
    ensures WordsBefore(a, src, i + 1) == WordsBefore(a, src, i)
  {
    forall t: nat | t < i + 1 && IsStart(a, src[t]) && i + 1 < |src|
      ensures !AllCont(a, src, t, i + 1)
    {
      if IsCont(a, src[i]) {
        assert !AllCont(a, src, t, i);
      }
    }
  }

  lemma {:induction false} NoNewlines(a: Alphabet, src: Text, i: nat, e: nat)
    requires i <= e <= |src| && AllCont(a, src, i, e)
    ensures ValidAlphabet(a) ==> Newlines(src, e) == Newlines(src, i)
    decreases e
  {
    if i < e {
      NoNewlines(a, src, i, e - 1);
      assert IsCont(a, src[e - 1]);
    }
  }

  lemma {:induction false} InsideWord(a: Alphabet, src: Text, i: nat, k: nat, e: nat)
    requires i < k <= e <= |src| && IsStart(a, src[i]) && AllCont(a, src, i, e)
    ensures WordsBefore(a, src, e) == WordsBefore(a, src, k)
    ensures ValidAlphabet(a) ==> Newlines(src, e) == Newlines(src, i)
    decreases e
  {
    assert IsCont(a, src[e - 1]);
    if k < e {
      InsideWord(a, src, i, k, e - 1);
      assert AllCont(a, src, i, e - 1);
    } else {
      NoNewlines(a, src, i, e);
    }
  }

  /** Taking a whole word yields exactly that word. */
  lemma TakeWord(a: Alphabet, src: Text, i: nat, e: nat)
    requires AtBoundary(a, src, i) && i < |src| && IsStart(a, src[i]) && RunEnds(a, src, i, e) && i < e
    ensures AtBoundary(a, src, e)
    ensures WordsBefore(a, src, e) == WordsBefore(a, src, i) + [Word(src[i..e], 1 + Newlines(src, i))]
    ensures ValidAlphabet(a) ==> Newlines(src, e) == Newlines(src, i)
  {
    RunEndUnique(a, src, i, e);
    assert WordStart(a, src, i);
    InsideWord(a, src, i, i + 1, e);
  }

  // ---------- one file ----------

  /** The indices below k of the words with the hash h. */
  ghost function Postings(a: Alphabet, words: seq<Word>, h: nat, k: nat): seq<nat>
    requires k <= |words|
  {
    if k == 0 then []
    else Postings(a, words, h, k - 1) + if a.hash(words[k - 1].text) == h then [k - 1] else []
  }

  /** The lines of the occurrences of a word: the plain filter. */
  ghost function LinesOf(words: seq<Word>, text: Text): seq<nat> {
    if words == [] then []
    else LinesOf(words[..|words| - 1], text) +
         if words[|words| - 1].text == text then [words[|words| - 1].line] else []
  }

  lemma {:induction false} PostingsOfPrefix(a: Alphabet, words: seq<Word>, w: Word, h: nat, k: nat)
    requires k <= |words|
    ensures Postings(a, words + [w], h, k) == Postings(a, words, h, k)
  {
    if k > 0 {
      PostingsOfPrefix(a, words, w, h, k - 1);
    }
  }

  function At(post: map<nat, seq<nat>>, h: nat): seq<nat> {
    if h in post then post[h] else []
  }

  lemma {:induction false} PostingsGrow(a: Alphabet, words: seq<Word>, h: nat, k: nat, l: nat)
    requires k <= l <= |words|
    ensures Postings(a, words, h, k) <= Postings(a, words, h, l)
    decreases l
  {
    if k < l {
      PostingsGrow(a, words, h, k, l - 1);
    }
  }

  lemma LinesStep(words: seq<Word>, text: Text, k: nat)
    requires k < |words|
    ensures LinesOf(words[..k + 1], text) ==
            LinesOf(words[..k], text) + if words[k].text == text then [words[k].line] else []
  {
    assert words[..k + 1][..k] == words[..k];
  }

  /** From k on, the next posting is the next word with the hash; the words before it do not match. */
  lemma {:induction false} NextPosting(a: Alphabet, words: seq<Word>, text: Text, j: nat, k: nat) returns (l: nat)
    requires k <= |words|
    requires j < |Postings(a, words, a.hash(text), |words|)| && j == |Postings(a, words, a.hash(text), k)|
    ensures k < l <= |words|
    ensures Postings(a, words, a.hash(text), |words|)[j] == l - 1
    ensures Postings(a, words, a.hash(text), l) == Postings(a, words, a.hash(text), k) + [l - 1]
    ensures LinesOf(words[..l], text) ==
            LinesOf(words[..k], text) + if words[l - 1].text == text then [words[l - 1].line] else []
    decreases |words| - k
  {
    var h := a.hash(text);
    LinesStep(words, text, k);
    if a.hash(words[k].text) == h {
      l := k + 1;
      PostingsGrow(a, words, h, l, |words|);
    } else {
      l := NextPosting(a, words, text, j, k + 1);
    }
  }

  lemma {:induction false} NoMorePostings(a: Alphabet, words: seq<Word>, text: Text, k: nat)
    requires k <= |words|
    requires Postings(a, words, a.hash(text), |words|) == Postings(a, words, a.hash(text), k)
    ensures LinesOf(words[..|words|], text) == LinesOf(words[..k], text)
    decreases |words| - k
  {
    if k < |words| {
      LinesStep(words, text, k);
      PostingsGrow(a, words, a.hash(text), k + 1, |words|);
      NoMorePostings(a, words, text, k + 1);
    }
  }

  class Index {
    const a: Alphabet
    var words: seq<Word>
    var post: map<nat, seq<nat>>

    ghost predicate Valid()
      reads this
    {
      ValidAlphabet(a) && forall h: nat :: At(post, h) == Postings(a, words, h, |words|)
    }

    /** Collects the words of one file. */
    constructor Build(a: Alphabet, src: Text)
      requires ValidAlphabet(a)
      ensures Valid() && this.a == a && words == WordsOf(a, src)
    {
      this.a := a;
      words, post := [], map[];
      new;
      var line := 1;
      var i := 0;
      while i < |src|
        invariant Valid() && this.a == a && AtBoundary(a, src, i)
        invariant words == WordsBefore(a, src, i) && line == 1 + Newlines(src, i)
      {
        var r := src[i];
        if r == Scalar('\n') {
          SkipRune(a, src, i);
          line := line + 1;
          i := i + 1;
          continue;
        }
        if IsStart(a, r) {
          var start := i;
          i := i + 1;
          while i < |src| && IsCont(a, src[i])
            invariant start < i <= |src| && AllCont(a, src, start, i)
          {
            i := i + 1;
          }
          TakeWord(a, src, start, i);
          Add(src[start..i], line);
          continue;
        }
        SkipRune(a, src, i);
        i := i + 1;
      }
    }

    method Add(text: Text, line: nat)
      requires Valid()
      modifies this
      ensures Valid() && words == old(words) + [Word(text, line)]
    {
      var key := a.hash(text);
      forall h: nat { PostingsOfPrefix(a, words, Word(text, line), h, |words|); }
      var idx := |words|;
      words := words + [Word(text, line)];
      post := post[key := At(post, key) + [idx]];
    }

    /** The lines of all exact matches, through the posting map. */
    method Find(text: Text) returns (out: seq<nat>)
      requires Valid()
      ensures out == LinesOf(words, text)
    {
      var key := a.hash(text);
      var hits := At(post, key);
      out := [];
      ghost var k := 0;
      for j := 0 to |hits|
        invariant k <= |words| && hits[..j] == Postings(a, words, key, k)
        invariant out == LinesOf(words[..k], text)
      {
        k := NextPosting(a, words, text, j, k);
        var i := hits[j];
        if i < |words| && words[i].text == text {
          out := out + [words[i].line];
        }
      }
      NoMorePostings(a, words, text, k);
      assert words[..|words|] == words;
    }
  }

  // ---------- many files ----------

  datatype PosRef = PosRef(path: string, line: nat)

  datatype FileWords = FileWords(path: string, words: seq<Word>)

  /** The positions of the words of one file with the hash h, in order. */
  ghost function HashRefs(a: Alphabet, path: string, words: seq<Word>, h: nat): seq<PosRef> {
    if words == [] then []
    else HashRefs(a, path, words[..|words| - 1], h) +
         if a.hash(words[|words| - 1].text) == h then [PosRef(path, words[|words| - 1].line)] else []
  }

  /** The positions of the exact occurrences of a word in one file, in order. */
  ghost function TextRefs(path: string, words: seq<Word>, text: Text): seq<PosRef> {
    if words == [] then []
    else TextRefs(path, words[..|words| - 1], text) +
         if words[|words| - 1].text == text then [PosRef(path, words[|words| - 1].line)] else []
  }

  /** File by file, each file's positions contiguous and in order. */
  ghost function AllHashRefs(a: Alphabet, files: seq<FileWords>, h: nat): seq<PosRef> {
    if files == [] then []
    else AllHashRefs(a, files[..|files| - 1], h) + HashRefs(a, files[|files| - 1].path, files[|files| - 1].words, h)
  }

  ghost function AllTextRefs(files: seq<FileWords>, text: Text): seq<PosRef> {
    if files == [] then []
    else AllTextRefs(files[..|files| - 1], text) + TextRefs(files[|files| - 1].path, files[|files| - 1].words, text)
  }

  function RefsAt(byHash: map<nat, seq<PosRef>>, h: nat): seq<PosRef> {
    if h in byHash then byHash[h] else []
  }

  /** The map holds what it held before together with the given words of one file. */
  ghost predicate Posted(a: Alphabet, byHash: map<nat, seq<PosRef>>, path: string, words: seq<Word>, posted: map<nat, seq<PosRef>>) {
    forall h: nat {:trigger RefsAt(posted, h)} ::
      RefsAt(posted, h) == RefsAt(byHash, h) + HashRefs(a, path, words, h)
  }

  lemma HashRefsStep(a: Alphabet, path: string, words: seq<Word>, w: Word, h: nat)
    ensures HashRefs(a, path, words + [w], h) ==
            HashRefs(a, path, words, h) + if a.hash(w.text) == h then [PosRef(path, w.line)] else []
  {
    assert (words + [w])[..|words|] == words;
  }

  lemma PostedStep(a: Alphabet, byHash: map<nat, seq<PosRef>>, path: string, words: seq<Word>, w: Word, posted: map<nat, seq<PosRef>>)
    requires Posted(a, byHash, path, words, posted)
    ensures var key := a.hash(w.text);
      Posted(a, byHash, path, words + [w], posted[key := RefsAt(posted, key) + [PosRef(path, w.line)]])
  {
    var key := a.hash(w.text);
    var next := posted[key := RefsAt(posted, key) + [PosRef(path, w.line)]];
    forall h: nat
      ensures RefsAt(next, h) == RefsAt(byHash, h) + HashRefs(a, path, words + [w], h)
    {
      HashRefsStep(a, path, words, w, h);
      assert RefsAt(posted, h) == RefsAt(byHash, h) + HashRefs(a, path, words, h);
      assert RefsAt(next, h) == RefsAt(posted, h) + if key == h then [PosRef(path, w.line)] else [];
    }
  }

  /** Appends the position of each word to the postings under its hash. */
  method PostAll(a: Alphabet, byHash: map<nat, seq<PosRef>>, path: string, words: seq<Word>)
    returns (posted: map<nat, seq<PosRef>>)
    ensures Posted(a, byHash, path, words, posted)
  {
    posted := byHash;
    for i := 0 to |words|
      invariant Posted(a, byHash, path, words[..i], posted)
    {
      PostedStep(a, byHash, path, words[..i], words[i], posted);
      assert words[..i + 1] == words[..i] + [words[i]];
      var key := a.hash(words[i].text);
      posted := posted[key := RefsAt(posted, key) + [PosRef(path, words[i].line)]];
    }
    assert words[..|words|] == words;
  }

  class AggIndex {
    const a: Alphabet
    var files: seq<FileWords>
    var byHash: map<nat, seq<PosRef>>
    var failed: bool

    ghost predicate Valid()
      reads this
    {
      ValidAlphabet(a) && forall h: nat :: RefsAt(byHash, h) == AllHashRefs(a, files, h)
    }

    constructor (a: Alphabet)
      requires ValidAlphabet(a)
      ensures Valid() && this.a == a && files == [] && !failed
    {
      this.a := a;
      files, byHash, failed := [], map[], false;
    }

    /** Indexes one file; `None` stands for a file that could not be read. */
    method IndexOne(path: string, data: Option<Text>)
      requires Valid()
      modifies this
      ensures Valid()
      ensures data.None? ==> failed && files == old(files)
      ensures data.Some? ==> failed == old(failed) && files == old(files) + [FileWords(path, WordsOf(a, data.value))]
    {
      if data.None? {
        failed := true;
        return;
      }
      var idx := new Index.Build(a, data.value);
      var words := idx.words;
      ghost var before := files;
      files := files + [FileWords(path, words)];
      assert files[..|before|] == before;
      byHash := PostAll(a, byHash, path, words);
    }

    /** All postings under the hash of the word, or nothing after an indexing error. */
    method Find(text: Text) returns (out: seq<PosRef>)
      requires Valid()
      ensures out == if failed then [] else AllHashRefs(a, files, a.hash(text))
    {
      if failed {
        return [];
      }
      return RefsAt(byHash, a.hash(text));
    }
  }

  ghost predicate Collides(a: Alphabet, words: seq<Word>, text: Text) {
    exists i :: 0 <= i < |words| && words[i].text != text && a.hash(words[i].text) == a.hash(text)
  }

  /** Some indexed word differs from the given one and has the same hash. */
  ghost predicate SomeCollision(a: Alphabet, files: seq<FileWords>, text: Text) {
    exists f :: 0 <= f < |files| && Collides(a, files[f].words, text)
  }

  /** In one file the hash postings contain the exact occurrences, and more just when words collide. */
  lemma {:induction false} HashRefsExact(a: Alphabet, path: string, words: seq<Word>, text: Text)
    ensures |HashRefs(a, path, words, a.hash(text))| >= |TextRefs(path, words, text)|
    ensures |HashRefs(a, path, words, a.hash(text))| == |TextRefs(path, words, text)| <==> !Collides(a, words, text)
    ensures !Collides(a, words, text) ==> HashRefs(a, path, words, a.hash(text)) == TextRefs(path, words, text)
    decreases |words|
  {
    if words != [] {
      var front := words[..|words| - 1];
      HashRefsExact(a, path, front, text);
      if Collides(a, front, text) {
        var i :| 0 <= i < |front| && front[i].text != text && a.hash(front[i].text) == a.hash(text);
        assert words[i] == front[i];
      }
      if Collides(a, words, text) && words[|words| - 1].text == text {
        var i :| 0 <= i < |words| && words[i].text != text && a.hash(words[i].text) == a.hash(text);
        assert front[i] == words[i];
      }
      if !Collides(a, words, text) {
        assert words[|words| - 1].text == text || a.hash(words[|words| - 1].text) != a.hash(text);
      }
    }
  }

  /** The aggregated Find is exact precisely when no other indexed word has the same hash. */
  lemma {:induction false} AggFindExact(a: Alphabet, files: seq<FileWords>, text: Text)
    ensures |AllHashRefs(a, files, a.hash(text))| >= |AllTextRefs(files, text)|
    ensures |AllHashRefs(a, files, a.hash(text))| == |AllTextRefs(files, text)| <==> !SomeCollision(a, files, text)
    ensures AllHashRefs(a, files, a.hash(text)) == AllTextRefs(files, text) <==> !SomeCollision(a, files, text)
    decreases |files|
  {
    if files != [] {
      var front, last := files[..|files| - 1], files[|files| - 1];
      AggFindExact(a, front, text);
      HashRefsExact(a, last.path, last.words, text);
      if SomeCollision(a, front, text) {
        var f :| 0 <= f < |front| && Collides(a, front[f].words, text);
        assert files[f] == front[f];
      }
      if SomeCollision(a, files, text) && !Collides(a, last.words, text) {
        var f :| 0 <= f < |files| && Collides(a, files[f].words, text);
        assert front[f] == files[f];
      }
      if !SomeCollision(a, files, text) {
        assert !Collides(a, files[|files| - 1].words, text);
      }
    }
  }

  lemma OneMoreFile(a: Alphabet, fs: seq<FileWords>, f: FileWords, h: nat)
    ensures AllHashRefs(a, fs + [f], h) == AllHashRefs(a, fs, h) + HashRefs(a, f.path, f.words, h)
  {
    assert (fs + [f])[..|fs|] == fs;
  }

  /** The postings of two lists of files, one after the other. */
  lemma {:induction false} FilesTogether(a: Alphabet, xs: seq<FileWords>, ys: seq<FileWords>, h: nat)
    ensures AllHashRefs(a, xs + ys, h) == AllHashRefs(a, xs, h) + AllHashRefs(a, ys, h)
    decreases |ys|
  {
    if ys == [] {
      assert xs + ys == xs;
    } else {
      var front, y := ys[..|ys| - 1], ys[|ys| - 1];
      FilesTogether(a, xs, front, h);
      assert xs + ys == (xs + front) + [y];
      OneMoreFile(a, xs + front, y, h);
    }
  }

  /** Postings of a list of files without one of them. */
  lemma TakeOutFile(a: Alphabet, files: seq<FileWords>, j: nat, h: nat)
    requires j < |files|
    ensures multiset(AllHashRefs(a, files, h)) ==
            multiset(AllHashRefs(a, Without(files, j), h)) + multiset(HashRefs(a, files[j].path, files[j].words, h))
  {
    var xs, f, ys := files[..j], files[j], files[j + 1..];
    assert files == (xs + [f]) + ys;
    FilesTogether(a, xs + [f], ys, h);
    OneMoreFile(a, xs, f, h);
    FilesTogether(a, xs, ys, h);
  }

  /** The postings under a hash are, as a multiset, the union over the files, so the order in
      which the files were indexed does not matter. */
  lemma {:induction false} OrderOfFiles(a: Alphabet, files: seq<FileWords>, others: seq<FileWords>, h: nat)
    requires multiset(files) == multiset(others)
    ensures multiset(AllHashRefs(a, files, h)) == multiset(AllHashRefs(a, others, h))
    decreases |files|
  {
    SameSize(files, others);
    if files != [] {
      var j := SameHeads(others, files);
      assert Without(files, 0) == files[1..];
      OrderOfFiles(a, Without(files, 0), Without(others, j), h);
      TakeOutFile(a, files, 0, h);
      TakeOutFile(a, others, j, h);
    }
  }

  // ---------- words, lines and positions without recursion ----------

  ghost function NewlinesBefore(src: Text, i: nat): set<nat>
    requires i <= |src|
  {
    set j: nat | j < i && src[j] == Scalar('\n')
  }

  lemma {:induction false} NewlinesCount(src: Text, i: nat)
    requires i <= |src|
    ensures Newlines(src, i) == |NewlinesBefore(src, i)|
  {
    if i > 0 {
      NewlinesCount(src, i - 1);
      assert NewlinesBefore(src, i) == NewlinesBefore(src, i - 1) + if src[i - 1] == Scalar('\n') then {i - 1} else {};
    } else {
      assert NewlinesBefore(src, i) == {};
    }
  }

  /** w is the text of the run that starts at p, on the line that p is on. */
  ghost predicate IsWordAt(a: Alphabet, src: Text, p: nat, w: Word) {
    && p + |w.text| <= |src| && w.text == src[p..p + |w.text|]
    && RunEnds(a, src, p, p + |w.text|)
    && w.line == 1 + |set j: nat | j < p && src[j] == Scalar('\n')|
  }

  lemma WordAtIs(a: Alphabet, src: Text, p: nat)
    requires p <= |src|
    ensures IsWordAt(a, src, p, WordAt(a, src, p))
  {
    NewlinesCount(src, p);
    assert NewlinesBefore(src, p) == set j: nat | j < p && src[j] == Scalar('\n');
  }

  lemma {:induction false} WordsBeforeAre(a: Alphabet, src: Text, k: nat) returns (starts: seq<nat>)
    requires k <= |src|
    ensures |starts| == |WordsBefore(a, src, k)|
    ensures forall i :: 0 <= i < |starts| ==>
      starts[i] < k && WordStart(a, src, starts[i]) && IsWordAt(a, src, starts[i], WordsBefore(a, src, k)[i])
    ensures forall i, j :: 0 <= i < j < |starts| ==> starts[i] < starts[j]
    ensures forall p: nat :: p < k && WordStart(a, src, p) ==> p in starts
  {
    if k == 0 {
      starts := [];
    } else {
      var before := WordsBeforeAre(a, src, k - 1);
      starts := before + if WordStart(a, src, k - 1) then [k - 1] else [];
      WordAtIs(a, src, k - 1);
    }
  }

  /** The words of a text, in order of position: one for each run of continue-runes that holds a
      start-rune, from the first start-rune to the end of the run; its line is one more than the
      number of newlines before it. */
  lemma WordsAre(a: Alphabet, src: Text) returns (starts: seq<nat>)
    ensures |starts| == |WordsOf(a, src)|
    ensures forall i :: 0 <= i < |starts| ==>
      WordStart(a, src, starts[i]) && IsWordAt(a, src, starts[i], WordsOf(a, src)[i])
    ensures forall i, j :: 0 <= i < j < |starts| ==> starts[i] < starts[j]
    ensures forall p: nat :: WordStart(a, src, p) ==> p in starts
  {
    starts := WordsBeforeAre(a, src, |src|);
  }

  /** The lines of the occurrences of a word, in the order of the words. */
  lemma {:induction false} LinesAre(words: seq<Word>, text: Text) returns (hits: seq<nat>)
    ensures |hits| == |LinesOf(words, text)|
    ensures forall i :: 0 <= i < |hits| ==>
      hits[i] < |words| && words[hits[i]].text == text && LinesOf(words, text)[i] == words[hits[i]].line
    ensures forall i, j :: 0 <= i < j < |hits| ==> hits[i] < hits[j]
    ensures forall k :: 0 <= k < |words| && words[k].text == text ==> k in hits
    decreases |words|
  {
    if words == [] {
      hits := [];
    } else {
      var n := |words| - 1;
      var before := LinesAre(words[..n], text);
      hits := before + if words[n].text == text then [n] else [];
    }
  }

  /** The positions of a word in one file are its lines under the path of the file. */
  lemma {:induction false} TextRefsAre(path: string, words: seq<Word>, text: Text)
    ensures |TextRefs(path, words, text)| == |LinesOf(words, text)|
    ensures forall i :: 0 <= i < |LinesOf(words, text)| ==> TextRefs(path, words, text)[i] == PosRef(path, LinesOf(words, text)[i])
    decreases |words|
  {
    if words != [] {
      TextRefsAre(path, words[..|words| - 1], text);
    }
  }

  /** The exact positions in several files are those of the files one after the other. */
  lemma AllTextRefsAre(fs: seq<FileWords>, f: FileWords, text: Text)
    ensures AllTextRefs([], text) == []
    ensures AllTextRefs(fs + [f], text) == AllTextRefs(fs, text) + TextRefs(f.path, f.words, text)
  {
    assert (fs + [f])[..|fs|] == fs;
  }

  /** Which runes a word is made of: it starts with a letter or `_`, goes on with letters, digits and
      `_` as far as it can, and nothing in the run before it could have started it. */
  lemma WordRunes(a: Alphabet, src: Text, p: nat, w: Word)
    requires WordStart(a, src, p) && IsWordAt(a, src, p, w)
    ensures src[p].Scalar? && (src[p].c == '_' || a.isLetter(src[p].c)) && |w.text| > 0
    ensures forall k :: p <= k < p + |w.text| ==>
      src[k].Scalar? && (src[k].c == '_' || a.isLetter(src[k].c) || a.isDigit(src[k].c))
    ensures var e := p + |w.text|;
      e < |src| && src[e].Scalar? ==> src[e].c != '_' && !a.isLetter(src[e].c) && !a.isDigit(src[e].c)
    ensures forall t: nat :: t < p && src[t].Scalar? && (src[t].c == '_' || a.isLetter(src[t].c)) ==>
      exists k :: t <= k < p && (src[k].Invalid? || (src[k].c != '_' && !a.isLetter(src[k].c) && !a.isDigit(src[k].c)))
  {
    assert IsCont(a, src[p]);
    forall t: nat | t < p && src[t].Scalar? && (src[t].c == '_' || a.isLetter(src[t].c))
      ensures exists k :: t <= k < p && (src[k].Invalid? || (src[k].c != '_' && !a.isLetter(src[k].c) && !a.isDigit(src[k].c)))
    {
      assert IsStart(a, src[t]) && !AllCont(a, src, t, p);
      var k :| t <= k < p && !IsCont(a, src[k]);
    }
  }
}
