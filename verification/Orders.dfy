/** The order Python gives to strings and to the tuples used as sort keys. */
module Orders {

  /** Python's `<` on strings: code point by code point, a proper prefix first. */
  predicate StringLess(a: string, b: string) {
    if b == [] then false
    else if a == [] then true
    else a[0] < b[0] || (a[0] == b[0] && StringLess(a[1..], b[1..]))
  }

  lemma {:induction false} StringTrichotomy(a: string, b: string)
    ensures StringLess(a, b) <==> !StringLess(b, a) && a != b
  {
    if a != [] && b != [] && a[0] == b[0] {
      StringTrichotomy(a[1..], b[1..]);
      assert a == [a[0]] + a[1..] && b == [b[0]] + b[1..];
    }
  }

  lemma {:induction false} StringTransitive(a: string, b: string, c: string)
    requires StringLess(a, b) && StringLess(b, c)
    ensures StringLess(a, c)
  {
    if a != [] && a[0] == b[0] == c[0] {
      StringTransitive(a[1..], b[1..], c[1..]);
    }
  }

  /** One component of a sort key. */
  datatype Atom = Num(n: int) | Text(s: string)

  /** A sort key: the tuple a `key=` function or a dictionary key supplies. */
  type Key = seq<Atom>

  predicate AtomLess(a: Atom, b: Atom) {
    match (a, b)
    case (Num(x), Num(y)) => x < y
    case (Text(x), Text(y)) => StringLess(x, y)
    case (Num(_), Text(_)) => true
    case (Text(_), Num(_)) => false
  }

  lemma AtomTrichotomy(a: Atom, b: Atom)
    ensures AtomLess(a, b) <==> !AtomLess(b, a) && a != b
  {
    if a.Text? && b.Text? { StringTrichotomy(a.s, b.s); }
  }

  lemma AtomTransitive(a: Atom, b: Atom, c: Atom)
    requires AtomLess(a, b) && AtomLess(b, c)
    ensures AtomLess(a, c)
  {
    if a.Text? && b.Text? && c.Text? { StringTransitive(a.s, b.s, c.s); }
  }

  /** Python's `<` on tuples: the first differing component decides. */
  predicate Less(a: Key, b: Key) {
    if b == [] then false
    else if a == [] then true
    else AtomLess(a[0], b[0]) || (a[0] == b[0] && Less(a[1..], b[1..]))
  }

  lemma {:induction false} Trichotomy(a: Key, b: Key)
    ensures Less(a, b) <==> !Less(b, a) && a != b
  {
    if a != [] && b != [] {
      AtomTrichotomy(a[0], b[0]);
      if a[0] == b[0] {
        Trichotomy(a[1..], b[1..]);
        assert a == [a[0]] + a[1..] && b == [b[0]] + b[1..];
      }
    }
  }

  lemma {:induction false} Transitive(a: Key, b: Key, c: Key)
    requires Less(a, b) && Less(b, c)
    ensures Less(a, c)
  {
    if a != [] {
      AtomTrichotomy(a[0], b[0]);
      AtomTrichotomy(b[0], c[0]);
      if a[0] == b[0] == c[0] {
        Transitive(a[1..], b[1..], c[1..]);
      } else if AtomLess(a[0], b[0]) && AtomLess(b[0], c[0]) {
        AtomTransitive(a[0], b[0], c[0]);
      }
    }
  }
}
