/** Searching in byte strings: std::find, std::search for CR LF, find_last_of. */
module Text {
  import opened Endian

  const CRLF: Bytes := "\r\n"

  /** First position of `c`, or the end when there is none. */
  function IndexOf(b: Bytes, c: char): (i: nat)
    ensures i <= |b| && c !in b[..i] && (i < |b| ==> b[i] == c)
  {
    if b == [] || b[0] == c then 0 else 1 + IndexOf(b[1..], c)
  }

  predicate CrlfAt(b: Bytes, i: nat) {
    i + 1 < |b| && b[i] == '\r' && b[i + 1] == '\n'
  }

  /** First position of CR LF, or the end when there is none. */
  function FindCrlf(b: Bytes): (i: nat)
    ensures i <= |b|
    ensures i < |b| ==> CrlfAt(b, i)
    ensures forall j :: 0 <= j < i ==> !CrlfAt(b, j)
  {
    if b == [] || CrlfAt(b, 0) then 0
    else
      assert forall j :: 0 < j ==> (CrlfAt(b, j) <==> CrlfAt(b[1..], j - 1));
      1 + FindCrlf(b[1..])
  }

  /** Last position of `c`, or -1. */
  function LastIndexOf(b: Bytes, c: char): (i: int)
    ensures -1 <= i < |b| && c !in b[i + 1..] && (i >= 0 ==> b[i] == c)
  {
    if b == [] then -1
    else if b[|b| - 1] == c then |b| - 1
    else LastIndexOf(b[..|b| - 1], c)
  }

  lemma IndexOfUnique(b: Bytes, c: char, i: nat)
    requires i <= |b| && c !in b[..i] && (i < |b| ==> b[i] == c)
    ensures IndexOf(b, c) == i
  {
  }

  lemma LastIndexOfUnique(b: Bytes, c: char, i: nat)
    requires i < |b| && b[i] == c && c !in b[i + 1..]
    ensures LastIndexOf(b, c) == i
  {
  }

  lemma LastIndexOfFound(b: Bytes, c: char)
    ensures LastIndexOf(b, c) >= 0 <==> c in b
  {
    if LastIndexOf(b, c) < 0 {
      assert b[0..] == b;
    }
  }

  lemma FindCrlfUnique(b: Bytes, i: nat)
    requires CrlfAt(b, i) && forall j :: 0 <= j < i ==> !CrlfAt(b, j)
    ensures FindCrlf(b) == i
  {
  }

  /** Splitting at a separator that the left part does not contain. */
  lemma IndexOfSplit(a: Bytes, c: char, z: Bytes)
    requires c !in a
    ensures IndexOf(a + [c] + z, c) == |a|
  {
    assert (a + [c] + z)[..|a|] == a;
    IndexOfUnique(a + [c] + z, c, |a|);
  }

  /** Where a line ends does not depend on what follows it. */
  lemma FindCrlfStable(a: Bytes, b: Bytes)
    requires FindCrlf(a) < |a|
    ensures FindCrlf(a + b) == FindCrlf(a)
  {
    var i := FindCrlf(a);
    assert CrlfAt(a + b, i);
    forall j | 0 <= j < i ensures !CrlfAt(a + b, j) {
      assert CrlfAt(a + b, j) <==> CrlfAt(a, j);
    }
    FindCrlfUnique(a + b, i);
  }
}
