/** Regroupings of concatenations, as named steps. */
module SeqLaws {

  lemma {:induction false} Assoc<T>(a: seq<T>, b: seq<T>, c: seq<T>)
    ensures a + b + c == a + (b + c)
  {
  }

  lemma {:induction false} Assoc4<T>(a: seq<T>, b: seq<T>, c: seq<T>, d: seq<T>)
    ensures a + b + c + d == a + (b + (c + d))
  {
    Assoc(a + b, c, d);
    Assoc(a, b, c + d);
  }

  /** The first element of s moves over to a. */
  lemma {:induction false} Shift<T>(a: seq<T>, s: seq<T>)
    requires s != []
    ensures a + [s[0]] + s[1..] == a + s && [s[0]] + s[1..] == s
  {
    assert [s[0]] + s[1..] == s;
    Assoc(a, [s[0]], s[1..]);
  }

  lemma {:induction false} Empty<T>(a: seq<T>)
    ensures a + [] == a && [] + a == a
  {
  }
}
