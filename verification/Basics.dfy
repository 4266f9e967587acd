/** What several modules of the project share. */
module Basics {
  /** The usual optional value. */
  datatype Option<+T> = None | Some(value: T)

  type Byte = x: int | 0 <= x < 256

  /** White space of ECMAScript's `trim` and `\s`, by code point. */
  predicate IsSpace(c: int) {
    9 <= c <= 13 || c == 0x20 || c == 0xA0 || c == 0x1680 || 0x2000 <= c <= 0x200A
    || c == 0x2028 || c == 0x2029 || c == 0x202F || c == 0x205F || c == 0x3000 || c == 0xFEFF
  }

  /** A character that `\w` matches. */
  predicate IsWord(c: char) {
    'a' <= c <= 'z' || 'A' <= c <= 'Z' || '0' <= c <= '9' || c == '_'
  }

  lemma SubsetSize<T>(a: set<T>, b: set<T>)
    requires a <= b
    ensures |a| <= |b|
    ensures |a| == |b| ==> a == b
  {
    if a != {} {
      var x :| x in a;
      SubsetSize(a - {x}, b - {x});
    }
  }

  /** A set that `f` sends into another one, each element to a place of its own, is no larger. */
  lemma InjectionSize<T, U>(a: set<T>, b: set<U>, f: map<T, U>)
    requires forall x | x in a :: x in f && f[x] in b
    requires forall x, y | x in a && y in a && f[x] == f[y] :: x == y
    ensures |a| <= |b|
  {
    if a != {} {
      var x :| x in a;
      InjectionSize(a - {x}, b - {f[x]}, f);
    }
  }
}
