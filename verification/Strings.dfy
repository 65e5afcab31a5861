/** The order in which strings are sorted. */
module Strings {
  import Sorting

  /** Lexicographic order. */
  predicate StringLe(a: string, b: string) {
    a == "" || (b != "" && (a[0] < b[0] || (a[0] == b[0] && StringLe(a[1..], b[1..]))))
  }

  function ByText(): (string, string) -> bool {
    (a, b) => StringLe(a, b)
  }

  lemma {:induction false} StringLeTotal(a: string, b: string)
    ensures StringLe(a, b) || StringLe(b, a)
  {
    if a != "" && b != "" && a[0] == b[0] {
      StringLeTotal(a[1..], b[1..]);
    }
  }

  lemma {:induction false} StringLeAntisymmetric(a: string, b: string)
    requires StringLe(a, b) && StringLe(b, a)
    ensures a == b
  {
    if a != "" {
      StringLeAntisymmetric(a[1..], b[1..]);
      assert a == [a[0]] + a[1..] && b == [b[0]] + b[1..];
    }
  }

  lemma {:induction false} StringLeTransitive(a: string, b: string, c: string)
    requires StringLe(a, b) && StringLe(b, c)
    ensures StringLe(a, c)
  {
    if a != "" && a[0] == b[0] == c[0] {
      StringLeTransitive(a[1..], b[1..], c[1..]);
    }
  }

  lemma ByTextIsTotal()
    ensures Sorting.TotalOrder(ByText())
  {
    forall a: string, b: string
      ensures ByText()(a, b) || ByText()(b, a)
      ensures ByText()(a, b) && ByText()(b, a) ==> a == b
    {
      StringLeTotal(a, b);
      if StringLe(a, b) && StringLe(b, a) {
        StringLeAntisymmetric(a, b);
      }
    }
    forall a: string, b: string, c: string | ByText()(a, b) && ByText()(b, c)
      ensures ByText()(a, c)
    {
      StringLeTransitive(a, b, c);
    }
  }

  /** The order is the one of dictionaries: a prefix comes first, else the first place where the
      two differ decides. */
  lemma {:induction false} StringLeMeans(common: string, a: string, b: string)
    ensures a == "" ==> StringLe(common + a, common + b)
    ensures a != "" && b == "" ==> !StringLe(common + a, common + b)
    ensures a != "" && b != "" && a[0] != b[0] ==> (StringLe(common + a, common + b) <==> a[0] < b[0])
  {
    if common == "" {
      assert common + a == a && common + b == b;
    } else {
      assert (common + a)[1..] == common[1..] + a && (common + b)[1..] == common[1..] + b;
      StringLeMeans(common[1..], a, b);
    }
  }
}
