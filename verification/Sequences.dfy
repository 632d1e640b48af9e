/** Finding, cutting and joining in sequences of anything. */
module Sequences {

  /** Where `x` first occurs, or the length. */
  function IndexOf<T(==)>(s: seq<T>, x: T): (i: nat)
    ensures i <= |s| && x !in s[..i] && (i < |s| ==> s[i] == x)
  {
    if s == [] || s[0] == x then 0
    else
      var i := 1 + IndexOf(s[1..], x);
      assert s[..i] == [s[0]] + s[1..][..i - 1];
      i
  }

  lemma {:induction false} IndexOfIs<T>(s: seq<T>, x: T, i: nat)
    requires i <= |s| && x !in s[..i] && (i < |s| ==> s[i] == x)
    ensures IndexOf(s, x) == i
  {
  }

  /** The parts with `separator` between them. */
  function Join<T>(parts: seq<seq<T>>, separator: T): seq<T>
    requires parts != []
  {
    if |parts| == 1 then parts[0] else parts[0] + ([separator] + Join(parts[1..], separator))
  }

  lemma {:induction false} JoinFront<T>(first: seq<T>, rest: seq<seq<T>>, separator: T)
    requires rest != []
    ensures Join([first] + rest, separator) == first + ([separator] + Join(rest, separator))
  {
    assert ([first] + rest)[1..] == rest;
  }

  lemma {:induction false} JoinOne<T>(part: seq<T>, separator: T)
    ensures Join([part], separator) == part
  {
  }
}
