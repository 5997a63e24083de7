/**
 * The C string primitives both cores lean on: `isspace` in the C locale,
 * `strlen`, the string a `char*` denotes, and `strcmp`.
 *
 * A C string is modelled as a `seq<char>` holding at least one NUL; the
 * string proper is everything before the first NUL.
 */
module CStrings {

  const NUL: char := '\0'

  /** `isspace` in the C locale: space, tab, newline, vertical tab, form feed, carriage return. */
  predicate IsSpace(c: char) {
    c == ' ' || c == '\t' || c == '\n' || c == '\U{000B}' || c == '\U{000C}' || c == '\r'
  }

  /** `strlen`: the index of the first NUL of `s`. */
  function Strlen(s: seq<char>): (n: nat)
    requires NUL in s
    ensures n < |s| && s[n] == NUL
    ensures forall i :: 0 <= i < n ==> s[i] != NUL
  {
    if s[0] == NUL then 0 else 1 + Strlen(s[1..])
  }

  /** The C string stored at the start of `s`: everything before its first NUL. */
  function CString(s: seq<char>): (t: string)
    requires NUL in s
    ensures NUL !in t
    ensures |t| < |s| && s[..|t|] == t && s[|t|] == NUL
  {
    s[..Strlen(s)]
  }

  /** The string a `char*` pointing at offset `i` of `s` denotes. */
  function CStringAt(s: seq<char>, i: nat): (t: string)
    requires i <= |s| && NUL in s[i..]
    ensures NUL !in t
    ensures i + |t| < |s| && s[i..i + |t|] == t && s[i + |t|] == NUL
  {
    s[i..i + Strlen(s[i..])]
  }

  /** Reading a C string back from `t + [NUL] + rest` gives exactly `t`, when `t` holds no NUL. */
  lemma CStringAtTerminated(prefix: seq<char>, t: string, rest: seq<char>)
    requires NUL !in t
    ensures NUL in (prefix + t + [NUL] + rest)[|prefix|..]
    ensures CStringAt(prefix + t + [NUL] + rest, |prefix|) == t
  {
    var s := prefix + t + [NUL] + rest;
    assert s[|prefix|..] == t + [NUL] + rest;
    assert s[|prefix|..][|t|] == NUL;
    assert forall i :: 0 <= i < |t| ==> s[|prefix|..][i] == t[i];
    assert Strlen(s[|prefix|..]) == |t|;
  }

  /**
   * `strcmp`, reduced to its sign: bytes are compared in order, the first
   * difference decides, and a proper prefix compares smaller.
   */
  function Strcmp(a: string, b: string): (r: int)
    ensures -1 <= r <= 1
    ensures r == 0 <==> a == b
  {
    if a == [] && b == [] then 0
    else if a == [] then -1
    else if b == [] then 1
    else if a[0] < b[0] then -1
    else if a[0] > b[0] then 1
    else
      assert a == [a[0]] + a[1..] && b == [b[0]] + b[1..];
      Strcmp(a[1..], b[1..])
  }

  /** Swapping the operands of `strcmp` flips the sign of the result. */
  lemma {:induction false} StrcmpAntisymmetric(a: string, b: string)
    ensures Strcmp(b, a) == -Strcmp(a, b)
  {
    if a != [] && b != [] && a[0] == b[0] {
      StrcmpAntisymmetric(a[1..], b[1..]);
    }
  }

  /** "Compares smaller" is transitive, so a table ordered by `strcmp` is totally ordered. */
  lemma {:induction false} StrcmpTransitive(a: string, b: string, c: string)
    requires Strcmp(a, b) < 0 && Strcmp(b, c) < 0
    ensures Strcmp(a, c) < 0
  {
    if a != [] && b != [] && c != [] && a[0] == b[0] && b[0] == c[0] {
      StrcmpTransitive(a[1..], b[1..], c[1..]);
    }
  }
}
