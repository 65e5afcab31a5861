/** Trimming of Unicode white space, as strings.TrimSpace does it. */
module Text {

  predicate IsSpace(c: char) {
    || c in "\t\n\r " || c == '\U{0B}' || c == '\U{0C}' || c == '\U{85}' || c == '\U{A0}'
    || c == '\U{1680}' || '\U{2000}' <= c <= '\U{200A}' || c == '\U{2028}' || c == '\U{2029}'
    || c == '\U{202F}' || c == '\U{205F}' || c == '\U{3000}'
  }

  function TrimLeft(s: string): string {
    if s != "" && IsSpace(s[0]) then TrimLeft(s[1..]) else s
  }

  function TrimRight(s: string): string {
    if s != "" && IsSpace(s[|s| - 1]) then TrimRight(s[..|s| - 1]) else s
  }

  function Trim(s: string): string {
    TrimRight(TrimLeft(s))
  }

  /** No white space at either end. */
  predicate Trimmed(s: string) {
    s == "" || (!IsSpace(s[0]) && !IsSpace(s[|s| - 1]))
  }

  lemma {:induction false} TrimRightKeepsHead(s: string)
    requires s != "" && !IsSpace(s[0])
    ensures TrimRight(s) != "" && TrimRight(s)[0] == s[0]
  {
    if IsSpace(s[|s| - 1]) {
      TrimRightKeepsHead(s[..|s| - 1]);
    }
  }

  lemma {:induction false} TrimLeftHead(s: string)
    ensures TrimLeft(s) == "" || !IsSpace(TrimLeft(s)[0])
  {
    if s != "" && IsSpace(s[0]) {
      TrimLeftHead(s[1..]);
    }
  }

  lemma {:induction false} TrimRightLast(s: string)
    ensures TrimRight(s) == "" || !IsSpace(TrimRight(s)[|TrimRight(s)| - 1])
  {
    if s != "" && IsSpace(s[|s| - 1]) {
      TrimRightLast(s[..|s| - 1]);
    }
  }

  /** Trimming yields a trimmed string, and leaves exactly the trimmed strings as they are. */
  lemma TrimIsTrimmed(s: string)
    ensures Trimmed(Trim(s))
    ensures Trim(s) == s <==> Trimmed(s)
  {
    TrimLeftHead(s);
    TrimRightLast(TrimLeft(s));
    if TrimLeft(s) != "" {
      TrimRightKeepsHead(TrimLeft(s));
    }
  }

  ghost predicate AllSpaces(s: string) {
    forall i :: 0 <= i < |s| ==> IsSpace(s[i])
  }

  lemma {:induction false} TrimLeftPadded(s: string, rest: string)
    requires AllSpaces(s) && (rest == "" || !IsSpace(rest[0]))
    ensures TrimLeft(s + rest) == rest
  {
    if s == "" {
      assert s + rest == rest;
    } else {
      assert (s + rest)[1..] == s[1..] + rest;
      TrimLeftPadded(s[1..], rest);
    }
  }

  lemma {:induction false} TrimRightPadded(rest: string, s: string)
    requires AllSpaces(s) && (rest == "" || !IsSpace(rest[|rest| - 1]))
    ensures TrimRight(rest + s) == rest
    decreases |s|
  {
    if s == "" {
      assert rest + s == rest;
    } else {
      assert (rest + s)[..|rest + s| - 1] == rest + s[..|s| - 1];
      TrimRightPadded(rest, s[..|s| - 1]);
    }
  }

  /** Trimming takes away exactly the white space at both ends. */
  lemma TrimPadded(left: string, middle: string, right: string)
    requires AllSpaces(left) && AllSpaces(right) && Trimmed(middle)
    ensures Trim(left + middle + right) == middle
  {
    assert left + middle + right == left + (middle + right);
    if middle == "" {
      assert left + middle + right == left + right + "";
      assert AllSpaces(left + right);
      TrimLeftPadded(left + right, "");
    } else {
      TrimLeftPadded(left, middle + right);
      TrimRightPadded(middle, right);
    }
  }

  lemma {:induction false} TrimLeftParts(s: string) returns (left: string)
    ensures AllSpaces(left) && s == left + TrimLeft(s)
  {
    if s != "" && IsSpace(s[0]) {
      var rest := TrimLeftParts(s[1..]);
      left := [s[0]] + rest;
      assert s == [s[0]] + s[1..];
    } else {
      left := "";
    }
  }

  lemma {:induction false} TrimRightParts(s: string) returns (right: string)
    ensures AllSpaces(right) && s == TrimRight(s) + right
    decreases |s|
  {
    if s != "" && IsSpace(s[|s| - 1]) {
      var rest := TrimRightParts(s[..|s| - 1]);
      right := rest + [s[|s| - 1]];
      assert s == s[..|s| - 1] + [s[|s| - 1]];
    } else {
      right := "";
    }
  }

  /** Exactly the strings of white space only are trimmed to nothing. */
  lemma {:induction false} TrimmedToNothing(s: string)
    ensures Trim(s) == "" <==> AllSpaces(s)
  {
    if AllSpaces(s) {
      TrimPadded(s, "", "");
      assert s + "" + "" == s;
    }
    if Trim(s) == "" {
      var left := TrimLeftParts(s);
      var right := TrimRightParts(TrimLeft(s));
      assert s == left + right;
    }
  }
}
