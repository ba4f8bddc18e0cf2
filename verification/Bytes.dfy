/** Byte strings and the search both text formats rely on. */
module Bytes {
  /** A byte, written as the character of that code. */
  type Byte = c: char | c as int < 256

  type Text = seq<Byte>

  /** The position of the first c, |t| if there is none. */
  function IndexByte(t: Text, c: char): (i: nat)
    ensures i <= |t| && c !in t[..i] && (i < |t| ==> t[i] == c)
  {
    if t == [] then 0
    else if t[0] == c then 0
    else
      assert forall i: nat | i <= |t[1..]| :: t[..i + 1] == [t[0]] + t[1..][..i];
      1 + IndexByte(t[1..], c)
  }

  lemma {:induction false} IndexFound(t: Text, c: char)
    requires c in t
    ensures IndexByte(t, c) < |t|
  {
    if t[0] != c {
      assert t == [t[0]] + t[1..];
      IndexFound(t[1..], c);
    }
  }

  lemma {:induction false} NotInside(s: Text, n: nat, a: Text, c: char)
    requires |a| <= |s| && s[..|a|] == a && c !in a && n < |s| && s[n] == c
    ensures n >= |a|
  {
    assert forall i | 0 <= i < |a| :: s[i] == a[i] && a[i] in a;
  }

  /** The first c of a text that starts with a c-free part and a c. */
  lemma {:induction false} IndexAfter(a: Text, b: Text, c: Byte)
    requires c !in a
    ensures IndexByte(a + [c] + b, c) == |a|
  {
    var s := a + [c] + b;
    assert s[|a|] == c && s[..|a|] == a;
    IndexFound(s, c);
    var i := IndexByte(s, c);
    NotInside(s, i, a, c);
    NotInside(s, |a|, s[..i], c);
  }

  /** A text has one split at a first c. */
  lemma {:induction false} SplitOnce(a: Text, b: Text, x: Text, y: Text, c: Byte)
    requires a + ([c] + b) == x + [c] + y && c !in a && c !in x
    ensures a == x && b == y
  {
    var s := a + ([c] + b);
    assert s[..|a|] == a && s[..|x|] == x && s[|a|] == c && s[|x|] == c;
    NotInside(s, |a|, x, c);
    NotInside(s, |x|, a, c);
    assert b == s[|a| + 1..] && y == s[|x| + 1..];
  }
}
