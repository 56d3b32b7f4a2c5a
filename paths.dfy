/** The string and path primitives the GUI code relies on:
  * Python's `str.split(sep)`, `str.split(sep, 1)` and `os.path.join` (POSIX flavour). */
module Paths {
  import opened Wrappers

  /** Position of the first `c` in `s`, or |s| when there is none (`str.find`
    * with "not found" reported as the length). */
  function Find(s: string, c: char): (i: nat)
    ensures i <= |s|
  {
    if s == [] then 0 else if s[0] == c then 0 else 1 + Find(s[1..], c)
  }

  /** Find stops at the first occurrence, and reports |s| exactly when there is none. */
  lemma {:induction false} FindIsFirst(s: string, c: char)
    ensures Find(s, c) < |s| ==> s[Find(s, c)] == c
    ensures forall k :: 0 <= k < Find(s, c) ==> s[k] != c
    ensures Find(s, c) == |s| <==> c !in s
    ensures c !in s[..Find(s, c)]
  {
    if s != [] && s[0] != c {
      FindIsFirst(s[1..], c);
      assert forall k :: 1 <= k < |s| ==> s[k] == s[1..][k - 1];
    }
  }

  /** A position holding `c` with no `c` before it is what Find reports. */
  lemma {:induction false} FindUnique(s: string, c: char, i: nat)
    requires i <= |s|
    requires i < |s| ==> s[i] == c
    requires forall k :: 0 <= k < i ==> s[k] != c
    ensures Find(s, c) == i
  {
    if i > 0 {
      assert s[0] != c;
      assert forall k :: 0 <= k < i - 1 ==> s[1..][k] == s[k + 1];
      FindUnique(s[1..], c, i - 1);
    }
  }

  /** `s.split(sep)`: the pieces between the separators, always at least one. */
  function Split(s: string, sep: char): (parts: seq<string>)
    ensures |parts| >= 1
    decreases |s|
  {
    var i := Find(s, sep);
    if i == |s| then [s] else [s[..i]] + Split(s[i + 1..], sep)
  }

  /** `sep.join(parts)`. */
  function Join(parts: seq<string>, sep: char): string
    requires |parts| >= 1
  {
    if |parts| == 1 then parts[0] else parts[0] + [sep] + Join(parts[1..], sep)
  }

  /** No piece of a split holds the separator. */
  lemma {:induction false} SplitPiecesLackSeparator(s: string, sep: char)
    ensures forall k :: 0 <= k < |Split(s, sep)| ==> sep !in Split(s, sep)[k]
    decreases |s|
  {
    var i := Find(s, sep);
    FindIsFirst(s, sep);
    if i < |s| {
      SplitPiecesLackSeparator(s[i + 1..], sep);
      assert sep !in s[..i];
    }
  }

  /** A character absent from `s` is absent from every piece of its split. */
  lemma {:induction false} SplitKeepsAbsent(s: string, sep: char, c: char)
    requires c !in s
    ensures forall k :: 0 <= k < |Split(s, sep)| ==> c !in Split(s, sep)[k]
    decreases |s|
  {
    var i := Find(s, sep);
    if i < |s| {
      assert forall x :: x in s[..i] ==> x in s;
      assert forall x :: x in s[i + 1..] ==> x in s;
      SplitKeepsAbsent(s[i + 1..], sep, c);
    }
  }

  /** Joining the pieces of a split gives back the original string. */
  lemma {:induction false} JoinSplit(s: string, sep: char)
    ensures Join(Split(s, sep), sep) == s
    decreases |s|
  {
    var i := Find(s, sep);
    if i < |s| {
      FindIsFirst(s, sep);
      var rest := s[i + 1..];
      var p := Split(s, sep);
      assert p == [s[..i]] + Split(rest, sep);
      assert p[1..] == Split(rest, sep);
      JoinSplit(rest, sep);
      assert Join(p, sep) == s[..i] + [sep] + rest;
      assert s == s[..i] + [sep] + rest;
    }
  }

  /** Splitting a join of separator-free pieces gives back the pieces. */
  lemma {:induction false} SplitJoin(parts: seq<string>, sep: char)
    requires |parts| >= 1
    requires forall k :: 0 <= k < |parts| ==> sep !in parts[k]
    ensures Split(Join(parts, sep), sep) == parts
  {
    var s := Join(parts, sep);
    var head := parts[0];
    if |parts| == 1 {
      FindIsFirst(s, sep);
    } else {
      var tail := parts[1..];
      var rest := Join(tail, sep);
      assert s == head + [sep] + rest;
      assert Find(s, sep) == |head| by {
        assert sep !in head;
        assert forall k :: 0 <= k < |head| ==> s[k] == head[k];
        FindUnique(s, sep, |head|);
      }
      assert s[..|head|] == head && s[|head| + 1..] == rest;
      assert Split(s, sep) == [head] + Split(rest, sep);
      assert forall k :: 0 <= k < |tail| ==> sep !in tail[k] by {
        assert forall k :: 0 <= k < |tail| ==> tail[k] == parts[k + 1];
      }
      SplitJoin(tail, sep);
    }
  }

  /** A separator-free head followed by the separator is the first piece, and
    * the pieces of the rest follow it. */
  lemma SplitAtFirst(head: string, rest: string, sep: char)
    requires sep !in head
    ensures Split(head + [sep] + rest, sep) == [head] + Split(rest, sep)
  {
    var s := head + [sep] + rest;
    assert forall k :: 0 <= k < |head| ==> s[k] == head[k];
    FindUnique(s, sep, |head|);
    assert s[..|head|] == head && s[|head| + 1..] == rest;
  }

  /** Appending separator-free text only extends the last piece of a split. */
  lemma {:induction false} SplitAppend(s: string, t: string, sep: char)
    requires sep !in t
    ensures var p := Split(s, sep);
            Split(s + t, sep) == p[..|p| - 1] + [p[|p| - 1] + t]
    decreases |s|
  {
    var i := Find(s, sep);
    FindIsFirst(s, sep);
    if i < |s| {
      var head, rest := s[..i], s[i + 1..];
      var q := Split(rest, sep);
      assert Split(s, sep) == [head] + q;
      assert Split(s + t, sep) == [head] + Split(rest + t, sep) by {
        assert s == head + [sep] + rest;
        assert s + t == head + [sep] + (rest + t);
        SplitAtFirst(head, rest + t, sep);
      }
      SplitAppend(rest, t, sep);
      ExtendLast(head, q, t);
    } else {
      SplitWithoutSeparator(s + t, sep);
    }
  }

  /** A string without the separator splits into itself alone. */
  lemma SplitWithoutSeparator(s: string, sep: char)
    requires sep !in s
    ensures Split(s, sep) == [s]
  {
    FindIsFirst(s, sep);
  }

  /** Extending the last element of a non-empty sequence commutes with putting
    * an element in front. */
  lemma ExtendLast(head: string, q: seq<string>, t: string)
    requires |q| >= 1
    ensures var p := [head] + q;
            [head] + (q[..|q| - 1] + [q[|q| - 1] + t]) == p[..|p| - 1] + [p[|p| - 1] + t]
  {
    var p := [head] + q;
    assert p[..|p| - 1] == [head] + q[..|q| - 1] && p[|p| - 1] == q[|q| - 1];
  }

  /** The first piece of `s + [sep] + t` is the first piece of `s`. */
  lemma SplitFirstIgnoresTail(s: string, t: string, sep: char)
    ensures Split(s + [sep] + t, sep)[0] == Split(s, sep)[0]
  {
    var u := s + [sep] + t;
    var i := Find(s, sep);
    FindIsFirst(s, sep);
    assert forall k :: 0 <= k < |s| ==> u[k] == s[k];
    if i < |s| {
      FindUnique(u, sep, i);
      assert u[..i] == s[..i];
    } else {
      FindUnique(u, sep, |s|);
      assert u[..|s|] == s;
    }
  }

  /** `head, rest = s.split(sep, 1)`: None where the unpacking raises ValueError
    * because `s` holds no separator. */
  function SplitOnce(s: string, sep: char): (r: Option<(string, string)>)
    ensures r.None? <==> sep !in s
    ensures r.Some? ==> sep !in r.value.0 && s == r.value.0 + [sep] + r.value.1
  {
    var i := Find(s, sep);
    FindIsFirst(s, sep);
    if i == |s| then None
    else
      assert s == s[..i] + [sep] + s[i + 1..];
      Some((s[..i], s[i + 1..]))
  }

  /** Only the first separator splits: the rest is handed back unchanged,
    * further separators included. */
  lemma SplitOnceJoin(head: string, rest: string, sep: char)
    requires sep !in head
    ensures SplitOnce(head + [sep] + rest, sep) == Some((head, rest))
  {
    var s := head + [sep] + rest;
    assert s[..|head|] == head;
    assert forall k :: 0 <= k < |head| ==> s[k] == head[k];
    FindUnique(s, sep, |head|);
    assert s[|head| + 1..] == rest;
  }

  /** `os.path.join(a, b)` on POSIX: an absolute `b` discards `a`; otherwise one
    * slash is inserted unless `a` is empty or already ends with one. */
  function PathJoin(a: string, b: string): string {
    if |b| > 0 && b[0] == '/' then b
    else if a == "" || a[|a| - 1] == '/' then a + b
    else a + "/" + b
  }

  /** `os.path.join(a, *parts)`: a left fold of PathJoin. */
  function PathJoinAll(a: string, parts: seq<string>): string
    decreases |parts|
  {
    if parts == [] then a else PathJoinAll(PathJoin(a, parts[0]), parts[1..])
  }

  /** A path segment that `os.path.join` appends verbatim after one slash. */
  predicate PlainSegment(p: string) {
    p != "" && p[0] != '/' && p[|p| - 1] != '/'
  }

  /** For a base without a trailing slash and segments that neither start nor
    * end with one, `os.path.join` is plain joining with "/". */
  lemma {:induction false} PathJoinAllPlain(a: string, parts: seq<string>)
    requires a != "" && a[|a| - 1] != '/'
    requires |parts| >= 1
    requires forall k :: 0 <= k < |parts| ==> PlainSegment(parts[k])
    ensures PathJoinAll(a, parts) == a + "/" + Join(parts, '/')
    decreases |parts|
  {
    var p0, rest := parts[0], parts[1..];
    var a' := a + "/" + p0;
    assert PathJoinAll(a, parts) == PathJoinAll(a', rest) by {
      assert PlainSegment(p0);
      assert PathJoin(a, p0) == a';
    }
    if |parts| > 1 {
      assert a' != "" && a'[|a'| - 1] != '/' by {
        assert PlainSegment(p0);
        assert a'[|a'| - 1] == p0[|p0| - 1];
      }
      assert forall k :: 0 <= k < |rest| ==> PlainSegment(rest[k]) by {
        assert forall k :: 0 <= k < |rest| ==> rest[k] == parts[k + 1];
      }
      PathJoinAllPlain(a', rest);
      assert Join(parts, '/') == p0 + "/" + Join(rest, '/');
      assert a' + "/" + Join(rest, '/') == a + "/" + (p0 + "/" + Join(rest, '/'));
    }
  }
}
