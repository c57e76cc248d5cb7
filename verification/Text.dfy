/** The string operations the scanner applies to import strings and file names. */
module Text {

  predicate StartsWith(s: string, prefix: string) {
    |prefix| <= |s| && s[..|prefix|] == prefix
  }

  predicate Contains(s: string, sub: string) {
    exists i :: 0 <= i <= |s| && StartsWith(s[i..], sub)
  }

  function LowerChar(c: char): char {
    if 'A' <= c <= 'Z' then (c as int + 32) as char else c
  }

  /** ASCII lower case. */
  function Lower(s: string): (r: string)
    ensures |r| == |s| && forall i :: 0 <= i < |s| ==> r[i] == LowerChar(s[i])
  {
    seq(|s|, i requires 0 <= i < |s| => LowerChar(s[i]))
  }

  function LeadingCount(s: string, c: char): (n: nat)
    ensures n <= |s| && (forall i :: 0 <= i < n ==> s[i] == c) && (n < |s| ==> s[n] != c)
  {
    if s != [] && s[0] == c then 1 + LeadingCount(s[1..], c) else 0
  }

  function StripLeft(s: string, c: char): string {
    s[LeadingCount(s, c)..]
  }

  function StripRight(s: string, c: char): string {
    if s != [] && s[|s| - 1] == c then StripRight(s[..|s| - 1], c) else s
  }

  function Join(parts: seq<string>, sep: char): string {
    if parts == [] then [] else if |parts| == 1 then parts[0] else parts[0] + [sep] + Join(parts[1..], sep)
  }

  function Split(s: string, sep: char): (parts: seq<string>)
    ensures parts != []
  {
    if s == [] then [[]]
    else if s[0] == sep then [[]] + Split(s[1..], sep)
    else var rest := Split(s[1..], sep); [[s[0]] + rest[0]] + rest[1..]
  }

  predicate Free(s: string, sep: char) {
    forall i :: 0 <= i < |s| ==> s[i] != sep
  }

  lemma {:induction false} JoinOfSplit(s: string, sep: char)
    ensures Join(Split(s, sep), sep) == s
  {
    if s != [] {
      JoinOfSplit(s[1..], sep);
      var rest := Split(s[1..], sep);
      if s[0] == sep {
        assert ([[]] + rest)[1..] == rest;
      } else if |rest| > 1 {
        assert ([[s[0]] + rest[0]] + rest[1..])[1..] == rest[1..];
      }
    }
  }

  lemma {:induction false} SplitFree(s: string, sep: char)
    requires Free(s, sep)
    ensures Split(s, sep) == [s]
  {
    if s != [] {
      SplitFree(s[1..], sep);
      assert [s[0]] + s[1..] == s;
    }
  }

  lemma {:induction false} SplitCons(head: string, tail: string, sep: char)
    requires Free(head, sep)
    ensures Split(head + [sep] + tail, sep) == [head] + Split(tail, sep)
  {
    var s := head + [sep] + tail;
    if head == [] {
      assert s[1..] == tail;
    } else {
      SplitCons(head[1..], tail, sep);
      assert s[1..] == head[1..] + [sep] + tail;
      assert [s[0]] + head[1..] == head;
    }
  }

  lemma {:induction false} SplitOfJoin(parts: seq<string>, sep: char)
    requires parts != [] && forall p :: p in parts ==> Free(p, sep)
    ensures Split(Join(parts, sep), sep) == parts
  {
    if |parts| == 1 {
      SplitFree(parts[0], sep);
    } else {
      SplitOfJoin(parts[1..], sep);
      SplitCons(parts[0], Join(parts[1..], sep), sep);
    }
  }

  /** What comes before the first separator does not depend on what comes after it. */
  lemma {:induction false} SplitHead(head: string, tail: string, sep: char)
    requires Free(head, sep)
    ensures Split(head + tail, sep)[0] == head + Split(tail, sep)[0]
  {
    var s := head + tail;
    if head == [] {
      assert s == tail;
    } else {
      SplitHead(head[1..], tail, sep);
      assert s[1..] == head[1..] + tail;
    }
  }

  lemma SplitStep(c: char, s: string, sep: char)
    ensures Split([c] + s, sep) ==
      if c == sep then [[]] + Split(s, sep) else [[c] + Split(s, sep)[0]] + Split(s, sep)[1..]
  {
    assert ([c] + s)[1..] == s;
  }

  /** Splitting goes part by part through a separator. */
  lemma {:induction false} SplitThrough(a: string, b: string, sep: char)
    ensures Split(a + [sep] + b, sep) == Split(a, sep) + Split(b, sep)
  {
    if a == [] {
      assert a + [sep] + b == [sep] + b;
      SplitStep(sep, b, sep);
      assert Split([], sep) == [[]];
    } else {
      hide Split;
      var c, tail := a[0], a[1..];
      SplitThrough(tail, b, sep);
      Regroup(a, b, sep);
      SplitStep(c, tail + [sep] + b, sep);
      SplitStep(c, tail, sep);
      Glue(c, Split(tail, sep), Split(b, sep));
    }
  }

  lemma Regroup(a: string, b: string, sep: char)
    requires a != []
    ensures a + [sep] + b == [a[0]] + (a[1..] + [sep] + b) && a == [a[0]] + a[1..]
  {
  }

  lemma Glue(c: char, rest: seq<string>, more: seq<string>)
    requires rest != []
    ensures [[]] + (rest + more) == [[]] + rest + more
    ensures [[c] + (rest + more)[0]] + (rest + more)[1..] == [[c] + rest[0]] + rest[1..] + more
  {
    assert (rest + more)[1..] == rest[1..] + more;
  }

  /** A text that ends in a last part splits into the parts of the rest and that part. */
  lemma SplitSnoc(init: string, last: string, sep: char)
    requires Free(last, sep)
    ensures Split(init + [sep] + last, sep) == Split(init, sep) + [last]
  {
    SplitThrough(init, last, sep);
    SplitFree(last, sep);
  }

  /** All parts of the parts. */
  function SplitAll(parts: seq<string>, sep: char): seq<string> {
    if parts == [] then [] else Split(parts[0], sep) + SplitAll(parts[1..], sep)
  }

  lemma {:induction false} SplitOfAnyJoin(parts: seq<string>, sep: char)
    requires parts != []
    ensures Split(Join(parts, sep), sep) == SplitAll(parts, sep)
  {
    if |parts| == 1 {
      assert SplitAll(parts[1..], sep) == [];
    } else {
      SplitOfAnyJoin(parts[1..], sep);
      SplitThrough(parts[0], Join(parts[1..], sep), sep);
    }
  }

  function Repeat(c: char, n: nat): string {
    seq(n, _ => c)
  }

  /** Stripping takes away exactly the repetitions in front. */
  lemma {:induction false} StripRepeated(c: char, n: nat, rest: string)
    requires rest == "" || rest[0] != c
    ensures LeadingCount(Repeat(c, n) + rest, c) == n && StripLeft(Repeat(c, n) + rest, c) == rest
  {
    var s := Repeat(c, n) + rest;
    if n == 0 {
      assert s == rest;
    } else {
      StripRepeated(c, n - 1, rest);
      assert s[1..] == Repeat(c, n - 1) + rest;
    }
  }

  lemma {:induction false} StripRightRepeated(s: string, c: char, n: nat)
    requires s == "" || s[|s| - 1] != c
    ensures StripRight(s + Repeat(c, n), c) == s
  {
    var t := s + Repeat(c, n);
    if n == 0 {
      assert t == s;
    } else {
      StripRightRepeated(s, c, n - 1);
      assert t[..|t| - 1] == s + Repeat(c, n - 1);
    }
  }

  /** A text contains another exactly when it can be written around it. */
  lemma ContainsExact(s: string, sub: string)
    ensures Contains(s, sub) <==> exists a, b :: s == a + sub + b
  {
    if i :| 0 <= i <= |s| && StartsWith(s[i..], sub) {
      assert s == s[..i] + sub + s[i + |sub|..];
    }
    if a, b :| s == a + sub + b {
      assert s[|a|..] == sub + b;
      assert StartsWith(s[|a|..], sub);
    }
  }

  /** Lower case letter by letter; everything else stays. */
  lemma LowerExact(c: char)
    ensures forall i :: 0 <= i < 26 ==> LowerChar("ABCDEFGHIJKLMNOPQRSTUVWXYZ"[i]) == "abcdefghijklmnopqrstuvwxyz"[i]
    ensures c !in "ABCDEFGHIJKLMNOPQRSTUVWXYZ" ==> LowerChar(c) == c
  {
    if 'A' <= c <= 'Z' {
      assert c == "ABCDEFGHIJKLMNOPQRSTUVWXYZ"[c as int - 65];
    }
  }

  /** Position of the last `c`, or -1. */
  function LastIndex(s: string, c: char): (i: int)
    ensures -1 <= i < |s|
    ensures i >= 0 ==> s[i] == c
    ensures forall k :: i < k < |s| ==> s[k] != c
  {
    if s == [] then -1 else if s[|s| - 1] == c then |s| - 1 else LastIndex(s[..|s| - 1], c)
  }

  /** A file name without its last extension; a leading or trailing dot starts no extension. */
  function Stem(name: string): string {
    var i := LastIndex(name, '.');
    if 0 < i < |name| - 1 then name[..i] else name
  }

  function Suffix(name: string): string {
    var i := LastIndex(name, '.');
    if 0 < i < |name| - 1 then name[i..] else []
  }

  lemma StemAndSuffix(base: string, ext: string)
    requires base != [] && ext != [] && Free(ext, '.')
    ensures Stem(base + ['.'] + ext) == base && Suffix(base + ['.'] + ext) == ['.'] + ext
  {
    var name := base + ['.'] + ext;
    assert name[|base|] == '.';
    assert name[..|base|] == base && name[|base|..] == ['.'] + ext;
  }
}
