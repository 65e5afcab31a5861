/** Key paths printed as dotted fields, and the parser that reads them back. */
module DottedPaths {
  import opened Collections
  import opened Options
  import opened Text
  import opened Json

  /** How a bracketed index is read: the number scanned from its text, if any. */
  type IndexReader = string -> Option<int>

  datatype Token = Key(key: string) | Indexed(key: string, index: int)

  datatype Parsed = Tokens(tokens: seq<Token>) | BadPath

  // ---------- printing ----------

  function JoinPath(base: string, key: string): string {
    if base == "" then key else base + "." + key
  }

  function Join(p: KeyPath): string {
    if p == [] then "" else JoinPath(Join(p[..|p| - 1]), p[|p| - 1])
  }

  function FieldOf(path: string): string {
    if Trim(path) == "" then "$" else Trim(path)
  }

  /** The field under which a change at p is recorded. */
  function Field(p: KeyPath): string {
    FieldOf(Join(p))
  }

  // ---------- parsing ----------

  /** The first position of c in s from position i on. */
  function IndexFrom(s: string, c: char, i: nat): (r: Option<nat>)
    requires i <= |s|
    ensures r.Some? ==> i <= r.value < |s| && s[r.value] == c && c !in s[i..r.value]
    ensures r.None? ==> c !in s[i..]
    decreases |s| - i
  {
    if i == |s| then None
    else if s[i] == c then Some(i)
    else
      var r := IndexFrom(s, c, i + 1);
      assert s[i..] == [s[i]] + s[i + 1..];
      assert r.Some? ==> s[i..r.value] == [s[i]] + s[i + 1..r.value];
      r
  }

  function Split(s: string): (parts: seq<string>)
    decreases |s|
  {
    var dot := IndexFrom(s, '.', 0);
    if dot.None? then [s] else [s[..dot.value]] + Split(s[dot.value + 1..])
  }

  function Prepend(ts: seq<Token>, rest: Parsed): Parsed {
    match rest
    case BadPath => BadPath
    case Tokens(us) => Tokens(ts + us)
  }

  /** What stands at the front of a part: a key only, an unreadable index, or a key with an
      index and the rest of the part. */
  datatype Front = KeyOnly | BadIndex | KeyAndIndex(token: Token, rest: string)

  function FrontOf(part: string, read: IndexReader): (f: Front)
    ensures f.KeyAndIndex? ==> |f.rest| < |part|
  {
    var open := IndexFrom(part, '[', 0);
    if open.None? then KeyOnly
    else
      var close := IndexFrom(part, ']', open.value);
      if close.None? then KeyOnly
      else
        var index := read(Trim(part[open.value + 1..close.value]));
        if index.None? then BadIndex
        else
          var rest := part[close.value + 1..];
          KeyAndIndex(Indexed(Trim(part[..open.value]), index.value),
                      if rest != "" && rest[0] == '.' then rest[1..] else rest)
  }

  /** The tokens of one dot-free part. */
  function PartTokens(part: string, read: IndexReader): Parsed
    decreases |part|
  {
    if part == "" then Tokens([])
    else
      match FrontOf(part, read)
      case KeyOnly => Tokens([Key(part)])
      case BadIndex => BadPath
      case KeyAndIndex(token, rest) => Prepend([token], PartTokens(rest, read))
  }

  /** The tokens of first, then those of rest, unless one of them is bad. */
  function Chain(first: Parsed, rest: Parsed): Parsed {
    match first
    case BadPath => BadPath
    case Tokens(ts) => Prepend(ts, rest)
  }

  function PartsTokens(parts: seq<string>, read: IndexReader): Parsed {
    if parts == [] then Tokens([]) else Chain(PartTokens(Trim(parts[0]), read), PartsTokens(parts[1..], read))
  }

  function PathTokens(field: string, read: IndexReader): Parsed {
    if Trim(field) == "" then BadPath else PartsTokens(Split(Trim(field)), read)
  }

  lemma PrependTwice(ts: seq<Token>, us: seq<Token>, rest: Parsed)
    ensures Prepend(ts, Prepend(us, rest)) == Prepend(ts + us, rest)
  {
    if rest.Tokens? {
      assert ts + (us + rest.tokens) == ts + us + rest.tokens;
    }
  }

  /** The loop over the brackets of one part, appending to the tokens found so far. */
  method ParsePart(part: string, read: IndexReader, found: seq<Token>) returns (r: Parsed)
    ensures r == Prepend(found, PartTokens(part, read))
  {
    var tokens, rest := found, part;
    while |rest| > 0
      invariant Prepend(found, PartTokens(part, read)) == Prepend(tokens, PartTokens(rest, read))
      decreases |rest|
    {
      match FrontOf(rest, read)
      case KeyOnly => return Tokens(tokens + [Key(rest)]);
      case BadIndex => return BadPath;
      case KeyAndIndex(token, next) =>
        PrependTwice(tokens, [token], PartTokens(next, read));
        tokens := tokens + [token];
        rest := next;
    }
    return Tokens(tokens);
  }

  lemma PrependNothing(rest: Parsed)
    ensures Prepend([], rest) == rest
  {
  }

  /** The parser as it runs: a loop over the parts and, in each part, over its brackets. */
  method ParsePathTokens(field: string, read: IndexReader) returns (r: Parsed)
    ensures r == PathTokens(field, read)
  {
    var trimmed := Trim(field);
    if trimmed == "" {
      return BadPath;
    }
    var tokens: seq<Token> := [];
    var parts := Split(trimmed);
    PrependNothing(PartsTokens(parts, read));
    assert parts[0..] == parts;
    for i := 0 to |parts|
      invariant PathTokens(field, read) == Prepend(tokens, PartsTokens(parts[i..], read))
    {
      var part := Trim(parts[i]);
      assert parts[i..][0] == parts[i] && parts[i..][1..] == parts[i + 1..];
      var now := ParsePart(part, read, tokens);
      if now.BadPath? {
        return BadPath;
      }
      PrependTwice(tokens, PartTokens(part, read).tokens, PartsTokens(parts[i + 1..], read));
      tokens := now.tokens;
    }
    return Tokens(tokens);
  }

  // ---------- which key paths survive printing and parsing ----------

  predicate HasBracketPair(k: string) {
    var open := IndexFrom(k, '[', 0);
    open.Some? && IndexFrom(k, ']', open.value).Some?
  }

  /** A key that a dotted field can carry. */
  predicate GoodKey(k: string) {
    k != "" && Trimmed(k) && '.' !in k && !HasBracketPair(k)
  }

  predicate GoodPath(p: KeyPath) {
    forall i :: 0 <= i < |p| ==> GoodKey(p[i])
  }

  function Keys(p: KeyPath): seq<Token> {
    if p == [] then [] else [Key(p[0])] + Keys(p[1..])
  }

  lemma {:induction false} KeysAt(p: KeyPath)
    ensures |Keys(p)| == |p| && forall i :: 0 <= i < |p| ==> Keys(p)[i] == Key(p[i])
  {
    if p != [] {
      KeysAt(p[1..]);
    }
  }

  lemma JoinLast(p: KeyPath, k: string)
    ensures Join(p + [k]) == JoinPath(Join(p), k)
  {
    assert (p + [k])[..|p|] == p;
  }

  /** Joining from the front instead of from the back. */
  lemma {:induction false} JoinFirst(k: string, p: KeyPath)
    requires k != "" && p != [] && p[0] != ""
    ensures Join(p) != ""
    ensures Join([k] + p) == k + "." + Join(p)
    decreases |p|
  {
    var front, last := p[..|p| - 1], p[|p| - 1];
    assert p == front + [last] && [k] + p == [k] + front + [last];
    JoinLast(front, last);
    JoinLast([k] + front, last);
    if front == [] {
      JoinLast([], k);
      assert [k] + front == [] + [k];
    } else {
      JoinFirst(k, front);
    }
  }

  lemma JoinFromFront(p: KeyPath)
    requires p != [] && GoodPath(p)
    ensures Join(p) != ""
    ensures Join(p) == if |p| == 1 then p[0] else p[0] + "." + Join(p[1..])
  {
    assert GoodKey(p[0]);
    if |p| == 1 {
      JoinLast([], p[0]);
      assert p == [] + [p[0]];
    } else {
      assert GoodKey(p[1]);
      JoinFirst(p[0], p[1..]);
      assert p == [p[0]] + p[1..];
    }
  }

  lemma {:induction false} JoinTrimmed(p: KeyPath)
    requires p != [] && GoodPath(p)
    ensures Join(p) != "" && Trimmed(Join(p))
    decreases |p|
  {
    JoinFromFront(p);
    assert GoodKey(p[0]);
    if |p| > 1 {
      JoinTrimmed(p[1..]);
    }
  }

  lemma {:induction false} FirstIndex(s: string, c: char, i: nat, k: nat)
    requires i <= k < |s| && s[k] == c && forall j :: i <= j < k ==> s[j] != c
    ensures IndexFrom(s, c, i) == Some(k)
    decreases k - i
  {
    if i < k {
      FirstIndex(s, c, i + 1, k);
    }
  }

  lemma DotSplits(k: string, rest: string)
    requires '.' !in k
    ensures Split(k) == [k]
    ensures Split(k + "." + rest) == [k] + Split(rest)
  {
    var s := k + "." + rest;
    FirstIndex(s, '.', 0, |k|);
    assert s[..|k|] == k && s[|k| + 1..] == rest;
  }

  lemma {:induction false} SplitJoin(p: KeyPath)
    requires p != [] && GoodPath(p)
    ensures Split(Join(p)) == p
  {
    JoinFromFront(p);
    assert GoodKey(p[0]);
    if |p| == 1 {
      DotSplits(p[0], "");
    } else {
      SplitJoin(p[1..]);
      DotSplits(p[0], Join(p[1..]));
    }
  }

  lemma {:induction false} GoodParts(p: KeyPath, read: IndexReader)
    requires GoodPath(p)
    ensures PartsTokens(p, read) == Tokens(Keys(p))
  {
    if p != [] {
      assert GoodKey(p[0]);
      TrimIsTrimmed(p[0]);
      GoodParts(p[1..], read);
    }
  }

  /** Every token of a part that is not an index is the part itself, and a good key. */
  lemma KeyTokenIsPart(part: string, read: IndexReader)
    requires part != "" && PartTokens(part, read).Tokens?
    ensures PartTokens(part, read).tokens != []
    ensures PartTokens(part, read).tokens[0].Key? ==>
              PartTokens(part, read) == Tokens([Key(part)]) && !HasBracketPair(part)
  {
  }

  lemma {:induction false} SplitHasNoDots(s: string, i: nat)
    requires i < |Split(s)|
    ensures '.' !in Split(s)[i]
    decreases |s|
  {
    var dot := IndexFrom(s, '.', 0);
    if dot.None? {
      assert s[0..] == s;
    } else {
      var head, rest := s[..dot.value], s[dot.value + 1..];
      assert Split(s) == [head] + Split(rest);
      assert head == s[0..dot.value];
      if i > 0 {
        SplitHasNoDots(rest, i - 1);
      }
    }
  }

  lemma {:induction false} TrimLeftKeepsOut(s: string, c: char)
    requires c !in s
    ensures c !in TrimLeft(s)
  {
    if s != "" && IsSpace(s[0]) {
      TrimLeftKeepsOut(s[1..], c);
    }
  }

  lemma {:induction false} TrimRightKeepsOut(s: string, c: char)
    requires c !in s
    ensures c !in TrimRight(s)
  {
    if s != "" && IsSpace(s[|s| - 1]) {
      TrimRightKeepsOut(s[..|s| - 1], c);
    }
  }

  lemma {:induction false} TrimKeepsOut(s: string, c: char)
    requires c !in s
    ensures c !in Trim(s)
  {
    TrimLeftKeepsOut(s, c);
    TrimRightKeepsOut(TrimLeft(s), c);
  }

  /** A field that parses to keys only parses to good keys. */
  lemma {:induction false} ParsedKeysAreGood(parts: seq<string>, read: IndexReader, p: KeyPath)
    requires forall i :: 0 <= i < |parts| ==> '.' !in parts[i]
    requires PartsTokens(parts, read) == Tokens(Keys(p))
    ensures GoodPath(p)
    decreases parts
  {
    KeysAt(p);
    if parts != [] {
      var part := Trim(parts[0]);
      assert '.' !in parts[0];
      TrimKeepsOut(parts[0], '.');
      TrimIsTrimmed(parts[0]);
      var now, later := PartTokens(part, read), PartsTokens(parts[1..], read);
      if part == "" {
        PrependNothing(later);
        ParsedKeysAreGood(parts[1..], read, p);
      } else {
        KeyTokenIsPart(part, read);
        assert Keys(p)[0] == now.tokens[0];
        assert Keys(p) == [Key(part)] + later.tokens;
        assert later.tokens == Keys(p)[1..];
        ParsedKeysAreGood(parts[1..], read, p[1..]);
      }
    }
  }

  /** Printing a key path and parsing it back gives the same keys exactly when every key is good. */
  lemma PathRoundTrip(p: KeyPath, read: IndexReader)
    requires p != []
    ensures PathTokens(Join(p), read) == Tokens(Keys(p)) <==> GoodPath(p)
  {
    if GoodPath(p) {
      JoinTrimmed(p);
      TrimIsTrimmed(Join(p));
      SplitJoin(p);
      GoodParts(p, read);
    }
    if PathTokens(Join(p), read) == Tokens(Keys(p)) {
      var parts := Split(Trim(Join(p)));
      forall i | 0 <= i < |parts|
        ensures '.' !in parts[i]
      {
        SplitHasNoDots(Trim(Join(p)), i);
      }
      ParsedKeysAreGood(parts, read, p);
    }
  }

  // ---------- fields that no key path prints to ----------

  lemma ChainNothing(rest: Parsed)
    ensures Chain(Tokens([]), rest) == rest
  {
    PrependNothing(rest);
  }

  lemma FirstPart(first: string, rest: seq<string>, read: IndexReader)
    ensures PartsTokens([first] + rest, read) == Chain(PartTokens(Trim(first), read), PartsTokens(rest, read))
  {
    assert ([first] + rest)[1..] == rest;
  }

  lemma BlankFirst(blank: string, right: seq<string>, read: IndexReader)
    requires AllSpaces(blank)
    ensures PartsTokens([blank] + right, read) == PartsTokens(right, read)
  {
    TrimmedToNothing(blank);
    FirstPart(blank, right, read);
    ChainNothing(PartsTokens(right, read));
  }

  /** Blank parts are skipped. */
  lemma {:induction false} BlankPartsSkipped(parts: seq<string>, n: nat, read: IndexReader)
    requires n < |parts| && AllSpaces(parts[n])
    ensures PartsTokens(parts, read) == PartsTokens(Without(parts, n), read)
    decreases n
  {
    var first, rest := parts[0], parts[1..];
    assert parts == [first] + rest;
    if n == 0 {
      assert Without(parts, 0) == rest;
      BlankFirst(first, rest, read);
    } else {
      BlankPartsSkipped(rest, n - 1, read);
      var shorter := Without(rest, n - 1);
      assert Without(parts, n) == [first] + shorter;
      FirstPart(first, rest, read);
      FirstPart(first, shorter, read);
    }
  }

  lemma OnePart(s: string, read: IndexReader)
    requires Trim(s) == s
    ensures PartsTokens([s], read) == PartTokens(s, read)
  {
    assert [s][1..] == [];
    match PartTokens(s, read)
    case BadPath =>
    case Tokens(ts) => assert ts + [] == ts;
  }

  /** A trimmed field without a dot is one part. */
  lemma OneField(s: string, read: IndexReader)
    requires Trimmed(s) && s != "" && '.' !in s
    ensures PathTokens(s, read) == PartTokens(s, read)
  {
    TrimIsTrimmed(s);
    DotSplits(s, "");
    OnePart(s, read);
  }

  lemma {:induction false} BracketFront(key: string, index: string, rest: string, read: IndexReader)
    requires '[' !in key && ']' !in index && (rest == "" || rest[0] != '.')
    ensures FrontOf(key + "[" + index + "]" + rest, read) ==
      match read(Trim(index))
      case None => BadIndex
      case Some(n) => KeyAndIndex(Indexed(Trim(key), n), rest)
  {
    var s := key + "[" + index + "]" + rest;
    var close := |key| + 1 + |index|;
    FirstIndex(s, '[', 0, |key|);
    FirstIndex(s, ']', |key|, close);
    assert s[|key| + 1..close] == index && s[..|key|] == key && s[close + 1..] == rest;
  }

  /** A bracketed index makes an indexed token, with the trimmed key before it, and the rest of the
      part follows; a part with an unreadable index is rejected. */
  lemma {:induction false} BracketedPart(key: string, index: string, rest: string, read: IndexReader)
    requires '[' !in key && ']' !in index && (rest == "" || rest[0] != '.')
    ensures PartTokens(key + "[" + index + "]" + rest, read) ==
      match read(Trim(index))
      case None => BadPath
      case Some(n) => Prepend([Indexed(Trim(key), n)], PartTokens(rest, read))
  {
    BracketFront(key, index, rest, read);
  }

  /** A field of one part with an index is read as that, or rejected if the index is no number. */
  lemma {:induction false} IndexedField(key: string, index: string, read: IndexReader)
    requires Trimmed(key) && '.' !in key && '[' !in key && '.' !in index && ']' !in index
    ensures PathTokens(key + "[" + index + "]", read) ==
      match read(Trim(index))
      case None => BadPath
      case Some(n) => Tokens([Indexed(key, n)])
  {
    var s := key + "[" + index + "]";
    assert s + "" == s;
    BracketedPart(key, index, "", read);
    TrimIsTrimmed(key);
    assert Trimmed(s) && s != "" && '.' !in s;
    OneField(s, read);
  }
}
