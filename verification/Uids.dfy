/** Fresh names from a base name and a counter, and stable names for logical keys. */
module Uids {
  import opened Text

  // ---------- decimal numerals ----------

  function Digit(d: nat): char
    requires d < 10
  {
    "0123456789"[d]
  }

  function Decimal(n: nat): string {
    if n < 10 then [Digit(n)] else Decimal(n / 10) + [Digit(n % 10)]
  }

  predicate IsDigit(c: char) {
    '0' <= c <= '9'
  }

  lemma {:induction false} DecimalDigits(n: nat)
    ensures Decimal(n) != "" && forall i :: 0 <= i < |Decimal(n)| ==> IsDigit(Decimal(n)[i])
  {
    if n >= 10 {
      DecimalDigits(n / 10);
    }
  }

  lemma {:induction false} DecimalLast(n: nat)
    ensures |Decimal(n)| == 1 <==> n < 10
    ensures |Decimal(n)| >= 1 && Decimal(n)[|Decimal(n)| - 1] == Digit(n % 10)
  {
    if n >= 10 {
      DecimalLast(n / 10);
    }
  }

  lemma {:induction false} DecimalInjective(m: nat, n: nat)
    requires Decimal(m) == Decimal(n)
    ensures m == n
    decreases m
  {
    DecimalLast(m);
    DecimalLast(n);
    if m >= 10 && n >= 10 {
      assert Decimal(m)[..|Decimal(m)| - 1] == Decimal(m / 10);
      assert Decimal(n)[..|Decimal(n)| - 1] == Decimal(n / 10);
      DecimalInjective(m / 10, n / 10);
    }
  }

  /** The number that a string of digits stands for. */
  function ReadDigits(s: string): int {
    if s == "" then 0 else 10 * ReadDigits(s[..|s| - 1]) + (s[|s| - 1] as int - '0' as int)
  }

  lemma DigitValue(d: nat)
    requires d < 10
    ensures Digit(d) as int - '0' as int == d
  {
  }

  /** A numeral reads back to its number and has no leading zero. */
  lemma {:induction false} DecimalReadsBack(n: nat)
    ensures ReadDigits(Decimal(n)) == n
    ensures Decimal(n) != "" && (n > 0 ==> Decimal(n)[0] != '0') && (n == 0 ==> Decimal(n) == "0")
  {
    DigitValue(n % 10);
    if n < 10 {
      assert Decimal(n)[..0] == "";
    } else {
      DecimalReadsBack(n / 10);
      assert Decimal(n)[..|Decimal(n)| - 1] == Decimal(n / 10);
    }
  }

  // ---------- candidates ----------

  function Candidate(base: string, n: nat): string {
    base + "-" + Decimal(n)
  }

  lemma CandidateInjective(base: string, m: nat, n: nat)
    requires Candidate(base, m) == Candidate(base, n)
    ensures m == n
  {
    assert Candidate(base, m)[|base| + 1..] == Decimal(m);
    assert Candidate(base, n)[|base| + 1..] == Decimal(n);
    DecimalInjective(m, n);
  }

  /** The number given out last for a base; the search goes on from there. */
  function LastNumber(counter: map<string, nat>, base: string): nat {
    if base in counter && counter[base] > 1 then counter[base] else 1
  }

  /** The candidates with a number above n that are taken. */
  ghost function TakenAbove(used: set<string>, base: string, n: nat): set<string> {
    set u | u in used && exists m: nat :: m > n && u == Candidate(base, m)
  }

  lemma TakenShrinks(used: set<string>, base: string, n: nat)
    requires Candidate(base, n + 1) in used
    ensures TakenAbove(used, base, n + 1) < TakenAbove(used, base, n)
  {
    var c := Candidate(base, n + 1);
    assert c in TakenAbove(used, base, n);
    if c in TakenAbove(used, base, n + 1) {
      var m: nat :| m > n + 1 && c == Candidate(base, m);
      CandidateInjective(base, m, n + 1);
    }
  }

  class UIDGenerator {
    /** The base name for an id; nothing below depends on which function this is. */
    const baseOf: string -> string
    var used: set<string>
    var counter: map<string, nat>
    var byKey: map<string, string>

    /** Different keys have different uids, all of them taken. */
    ghost predicate Valid()
      reads this
    {
      && (forall k :: k in byKey ==> byKey[k] in used)
      && (forall k, l :: k in byKey && l in byKey && byKey[k] == byKey[l] ==> k == l)
    }

    constructor (baseOf: string -> string, existing: seq<string>)
      ensures Valid() && this.baseOf == baseOf && byKey == map[]
      ensures forall u :: u in used <==> u != "" && exists i :: 0 <= i < |existing| && u == Trim(existing[i])
    {
      this.baseOf := baseOf;
      counter, byKey := map[], map[];
      used := {};
      new;
      for i := 0 to |existing|
        invariant counter == map[] && byKey == map[] && this.baseOf == baseOf
        invariant forall u :: u in used <==> u != "" && exists j :: 0 <= j < i && u == Trim(existing[j])
      {
        var uid := Trim(existing[i]);
        if uid != "" {
          used := used + {uid};
        }
      }
    }

    /** A name never used or reserved before: the base itself, or else the base with the first
        free number above the ones given out so far. */
    method Generate(id: string) returns (uid: string)
      requires Valid()
      modifies `used, `counter
      ensures Valid()
      ensures uid !in old(used) && used == old(used) + {uid}
      ensures baseOf(id) in counter && counter == old(counter)[baseOf(id) := counter[baseOf(id)]]
      ensures baseOf(id) !in old(used) ==> uid == baseOf(id) && counter[baseOf(id)] == 1
      ensures baseOf(id) in old(used) ==>
        var base, n := baseOf(id), counter[baseOf(id)];
        && uid == base + "-" + Decimal(n) && n >= 2 && (base in old(counter) ==> n > old(counter)[base])
        && forall m: nat :: 2 <= m < n && (base in old(counter) ==> m > old(counter)[base]) ==>
             Candidate(base, m) in old(used)
    {
      var base := baseOf(id);
      if base !in used {
        used := used + {base};
        counter := counter[base := 1];
        return base;
      }
      var n: nat := if base in counter then counter[base] else 0;
      if n < 1 {
        n := 1;
      }
      while true
        invariant n >= LastNumber(old(counter), base) && used == old(used) && counter == old(counter)
        invariant forall m: nat :: LastNumber(old(counter), base) < m <= n ==> Candidate(base, m) in used
        decreases TakenAbove(used, base, n)
      {
        n := n + 1;
        var candidate := Candidate(base, n);
        if candidate in used {
          TakenShrinks(used, base, n - 1);
          continue;
        }
        used := used + {candidate};
        counter := counter[base := n];
        return candidate;
      }
    }

    /** A stable uid per key: the one given before, else a fresh one. */
    method GenerateForKey(key: string, id: string) returns (uid: string)
      requires Valid()
      modifies this
      ensures Valid()
      ensures Trim(key) != "" && Trim(key) in old(byKey) ==>
        uid == old(byKey)[Trim(key)] && byKey == old(byKey) && used == old(used) && counter == old(counter)
      ensures !(Trim(key) != "" && Trim(key) in old(byKey)) ==>
        && uid !in old(used) && used == old(used) + {uid}
        && if baseOf(id) !in old(used) then uid == baseOf(id)
           else exists n: nat :: n >= 2 && uid == baseOf(id) + "-" + Decimal(n)
      ensures byKey == if Trim(key) == "" then old(byKey) else old(byKey)[Trim(key) := uid]
    {
      var trimmed := Trim(key);
      if trimmed != "" && trimmed in byKey {
        return byKey[trimmed];
      }
      uid := Generate(id);
      if trimmed != "" {
        byKey := byKey[trimmed := uid];
      }
    }
  }
}
