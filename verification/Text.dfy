/** String operations of the JavaScript and Python code (white space, searching, splitting, joining) and
    the few helpers that everything else shares. */
module Text {

  datatype Option<+T> = None | Some(value: T)

  function Lookup<K, V>(m: map<K, V>, k: K): Option<V> {
    if k in m then Some(m[k]) else None
  }

  /** `a` and `b` agree, except possibly on `keys`. */
  ghost predicate AgreeOutside<K(!new), V>(a: map<K, V>, b: map<K, V>, keys: set<K>) {
    forall k :: k !in keys ==> Lookup(a, k) == Lookup(b, k)
  }

  function Elements<T>(items: seq<T>): set<T> {
    set item | item in items
  }

  lemma NoElements<T>(items: seq<T>)
    ensures items == [] <==> Elements(items) == {}
  {
    if items != [] {
      assert items[0] in Elements(items);
    }
  }

  function Min(a: nat, b: nat): (r: nat)
    ensures r <= a && r <= b
  {
    if a <= b then a else b
  }

  function Max(a: nat, b: nat): (r: nat)
    ensures r >= a && r >= b
  {
    if a >= b then a else b
  }

  /** The characters that `\s` matches and `trim` removes. */
  predicate IsWhitespace(c: char) {
    || c in {' ', '\t', '\n', '\r', '\U{B}', '\U{C}', '\U{A0}', '\U{1680}'}
    || '\U{2000}' <= c <= '\U{200A}'
    || c in {'\U{2028}', '\U{2029}', '\U{202F}', '\U{205F}', '\U{3000}', '\U{FEFF}'}
  }

  function TrimStart(s: string): string {
    if s != "" && IsWhitespace(s[0]) then TrimStart(s[1..]) else s
  }

  function TrimEnd(s: string): string {
    if s != "" && IsWhitespace(s[|s| - 1]) then TrimEnd(s[..|s| - 1]) else s
  }

  function Trim(s: string): string {
    TrimEnd(TrimStart(s))
  }

  predicate OccursAt(s: string, sep: string, i: int) {
    0 <= i && i + |sep| <= |s| && s[i..i + |sep|] == sep
  }

  /** Position of the first occurrence of `sep`, or -1. */
  function Find(s: string, sep: string): (i: int)
    ensures i == -1 || 0 <= i <= i + |sep| <= |s|
  {
    if sep <= s then 0
    else if s == "" then -1
    else
      var k := Find(s[1..], sep);
      if k == -1 then -1 else k + 1
  }

  lemma OccursInTail(s: string, sep: string, i: nat)
    requires s != "" && i >= 1
    ensures OccursAt(s, sep, i) == OccursAt(s[1..], sep, i - 1)
  {
    if i + |sep| <= |s| {
      assert s[1..][i - 1..i - 1 + |sep|] == s[i..i + |sep|];
    }
  }

  /** `Find` gives an occurrence with none before it, and -1 only when there is none. */
  lemma {:induction false} FindFirst(s: string, sep: string)
    ensures var i := Find(s, sep);
      && (i == -1 || OccursAt(s, sep, i))
      && forall j :: 0 <= j && (i == -1 || j < i) ==> !OccursAt(s, sep, j)
  {
    if !(sep <= s) && s != "" {
      FindFirst(s[1..], sep);
      var k := Find(s[1..], sep);
      if k != -1 {
        OccursInTail(s, sep, k + 1);
      }
      forall j | 1 <= j && OccursAt(s, sep, j)
        ensures OccursAt(s[1..], sep, j - 1)
      {
        OccursInTail(s, sep, j);
      }
    }
  }

  lemma FindIs(s: string, sep: string, i: nat)
    requires OccursAt(s, sep, i)
    requires forall j :: 0 <= j < i ==> !OccursAt(s, sep, j)
    ensures Find(s, sep) == i
  {
    FindFirst(s, sep);
  }

  /** `s.split(sep)`: the pieces between non-overlapping occurrences found from the left. */
  function Split(s: string, sep: string): (parts: seq<string>)
    requires sep != ""
    ensures |parts| >= 1
  {
    var i := Find(s, sep);
    if i == -1 then [s] else [s[..i]] + Split(s[i + |sep|..], sep)
  }

  function Join(parts: seq<string>, sep: string): string {
    if parts == [] then ""
    else if |parts| == 1 then parts[0]
    else parts[0] + sep + Join(parts[1..], sep)
  }

  function Concat(parts: seq<string>): string {
    if parts == [] then "" else parts[0] + Concat(parts[1..])
  }

  function Last<T>(s: seq<T>): T
    requires s != []
  {
    s[|s| - 1]
  }

  function Front<T>(s: seq<T>): seq<T>
    requires s != []
  {
    s[..|s| - 1]
  }

  /** An occurrence that is complete in `a` is still the first one after more text arrives. */
  lemma FindStable(a: string, b: string, sep: string)
    requires Find(a, sep) != -1
    ensures Find(a + b, sep) == Find(a, sep)
  {
    FindFirst(a, sep);
    var i := Find(a, sep);
    forall j | 0 <= j <= i
      ensures OccursAt(a + b, sep, j) == OccursAt(a, sep, j)
    {
      assert (a + b)[j..j + |sep|] == a[j..j + |sep|];
    }
    FindIs(a + b, sep, i);
  }

  lemma SplitUnfold(a: string, b: string, sep: string)
    requires sep != "" && Find(a, sep) != -1
    ensures var i := Find(a, sep);
      && Split(a, sep) == [a[..i]] + Split(a[i + |sep|..], sep)
      && Split(a + b, sep) == [a[..i]] + Split(a[i + |sep|..] + b, sep)
  {
    hide Find;
    var i, whole := Find(a, sep), a + b;
    FindStable(a, b, sep);
    assert whole[..i] == a[..i];
    assert whole[i + |sep|..] == a[i + |sep|..] + b;
  }

  lemma SplitWhole(s: string, sep: string)
    requires sep != "" && Find(s, sep) == -1
    ensures Split(s, sep) == [s]
  {
  }

  lemma FrontLast<T>(s: seq<T>)
    requires s != []
    ensures s == Front(s) + [Last(s)]
  {
  }

  lemma Assoc<T>(a: seq<T>, b: seq<T>, c: seq<T>)
    ensures (a + b) + c == a + (b + c)
  {
  }

  /** Splitting may stop at any point and go on later from the last, unfinished piece. */
  lemma {:induction false} SplitContinues(a: string, b: string, sep: string)
    requires sep != ""
    ensures Split(a + b, sep) == Front(Split(a, sep)) + Split(Last(Split(a, sep)) + b, sep)
    decreases |a|
  {
    hide Split, Find;
    var i := Find(a, sep);
    if i == -1 {
      SplitWhole(a, sep);
      assert Front([a]) == [] && Last([a]) == a;
    } else {
      SplitUnfold(a, b, sep);
      var rest := a[i + |sep|..];
      var pieces := Split(rest, sep);
      SplitContinues(rest, b, sep);
      ConsFrontLast(a[..i], pieces, Split(Last(pieces) + b, sep));
    }
  }

  lemma ConsFrontLast<T>(x: T, s: seq<T>, t: seq<T>)
    requires s != []
    ensures Last([x] + s) == Last(s)
    ensures Front([x] + s) + t == [x] + (Front(s) + t)
  {
    assert Front([x] + s) == [x] + Front(s);
  }

  lemma OccursHead(s: string, sep: string, i: int)
    requires sep != "" && OccursAt(s, sep, i)
    ensures s[i] == sep[0]
  {
    assert s[i..i + |sep|][0] == s[i];
  }

  /** A piece without the first character of the separator ends at the separator that follows it. */
  lemma SplitAfter(x: string, sep: string, rest: string)
    requires sep != "" && sep[0] !in x
    ensures Split(x + sep + rest, sep) == [x] + Split(rest, sep)
  {
    var s := x + sep + rest;
    forall j | 0 <= j < |x|
      ensures !OccursAt(s, sep, j)
    {
      assert s[j] == x[j];
      if OccursAt(s, sep, j) {
        OccursHead(s, sep, j);
      }
    }
    assert s[|x|..|x| + |sep|] == sep;
    FindIs(s, sep, |x|);
    assert s[..|x|] == x;
    assert s[|x| + |sep|..] == rest;
  }

  lemma SplitNone(x: string, sep: string)
    requires sep != "" && sep[0] !in x
    ensures Split(x, sep) == [x]
  {
    FindFirst(x, sep);
    if Find(x, sep) != -1 {
      OccursHead(x, sep, Find(x, sep));
    }
  }

  /** Joining with a character and splitting at it gives the pieces back. */
  lemma {:induction false} SplitJoin(parts: seq<string>, c: char)
    requires parts != []
    requires forall k :: 0 <= k < |parts| ==> c !in parts[k]
    ensures Split(Join(parts, [c]), [c]) == parts
    decreases |parts|
  {
    if |parts| == 1 {
      SplitNone(parts[0], [c]);
    } else {
      SplitJoin(parts[1..], c);
      SplitAfter(parts[0], [c], Join(parts[1..], [c]));
    }
  }

  /** Before the first occurrence of a character there is none. */
  lemma FindCharFree(s: string, c: char)
    ensures c !in (if Find(s, [c]) == -1 then s else s[..Find(s, [c])])
  {
    FindFirst(s, [c]);
    var i := Find(s, [c]);
    forall k | 0 <= k < (if i == -1 then |s| else i)
      ensures s[k] != c
    {
      assert !OccursAt(s, [c], k);
      assert s[k..k + 1] == [s[k]];
    }
  }

  /** No piece of a split at a single character contains that character. */
  lemma {:induction false} SplitPiecesFree(s: string, c: char)
    ensures forall k :: 0 <= k < |Split(s, [c])| ==> c !in Split(s, [c])[k]
    decreases |s|
  {
    FindCharFree(s, c);
    var i := Find(s, [c]);
    if i != -1 {
      var rest := s[i + 1..];
      SplitPiecesFree(rest, c);
      assert Split(s, [c]) == [s[..i]] + Split(rest, [c]);
    }
  }

  lemma TrimFixed(s: string)
    requires s != "" && !IsWhitespace(s[0]) && !IsWhitespace(s[|s| - 1])
    ensures Trim(s) == s
  {
  }

  lemma {:induction false} TrimEndKeepsStart(s: string)
    requires s == "" || !IsWhitespace(s[0])
    ensures TrimEnd(s) == "" || !IsWhitespace(TrimEnd(s)[0])
  {
    if s != "" && IsWhitespace(s[|s| - 1]) {
      TrimEndKeepsStart(s[..|s| - 1]);
    }
  }

  lemma {:induction false} TrimEndTwice(s: string)
    ensures TrimEnd(TrimEnd(s)) == TrimEnd(s)
  {
    if s != "" && IsWhitespace(s[|s| - 1]) {
      TrimEndTwice(s[..|s| - 1]);
    }
  }

  lemma {:induction false} TrimStartTrims(s: string)
    ensures TrimStart(s) == "" || !IsWhitespace(TrimStart(s)[0])
  {
    if s != "" && IsWhitespace(s[0]) {
      TrimStartTrims(s[1..]);
    }
  }

  lemma TrimTwice(s: string)
    ensures Trim(Trim(s)) == Trim(s)
  {
    TrimStartTrims(s);
    TrimEndKeepsStart(TrimStart(s));
    TrimEndTwice(TrimStart(s));
  }

  predicate Blank(s: string) {
    forall k :: 0 <= k < |s| ==> IsWhitespace(s[k])
  }

  lemma {:induction false} TrimStartExactly(s: string) returns (n: nat)
    ensures n <= |s| && Blank(s[..n]) && TrimStart(s) == s[n..]
  {
    if s != "" && IsWhitespace(s[0]) {
      var rest := TrimStartExactly(s[1..]);
      n := rest + 1;
      assert s[n..] == s[1..][rest..];
      forall k | 0 <= k < n
        ensures IsWhitespace(s[k])
      {
        assert k > 0 ==> s[k] == s[1..][..rest][k - 1];
      }
    } else {
      n := 0;
    }
  }

  lemma {:induction false} TrimEndExactly(s: string) returns (n: nat)
    ensures n <= |s| && Blank(s[n..]) && TrimEnd(s) == s[..n]
    ensures n == 0 || !IsWhitespace(s[n - 1])
  {
    if s != "" && IsWhitespace(s[|s| - 1]) {
      var front := s[..|s| - 1];
      n := TrimEndExactly(front);
      assert s[..n] == front[..n];
      forall k | n <= k < |s|
        ensures IsWhitespace(s[k])
      {
        assert k < |s| - 1 ==> s[k] == front[n..][k - n];
      }
    } else {
      n := |s|;
      assert s[..n] == s;
    }
  }

  /** Trimming takes off the white space at both ends, and only that. */
  lemma TrimExactly(s: string) returns (i: nat, j: nat)
    ensures i <= j <= |s| && Trim(s) == s[i..j] && Blank(s[..i]) && Blank(s[j..])
    ensures i < j ==> !IsWhitespace(s[i]) && !IsWhitespace(s[j - 1])
  {
    i := TrimStartExactly(s);
    var rest := s[i..];
    var n := TrimEndExactly(rest);
    j := i + n;
    assert rest[..n] == s[i..j] && rest[n..] == s[j..];
    TrimStartTrims(s);
    if n > 0 {
      assert rest[n - 1] == s[j - 1] && rest[0] == s[i];
    }
  }
}
