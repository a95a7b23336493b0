/**
 * Paths (config/path.go): a path string normalised to end in '/', with any
 * URL prefix through the last ':' dropped and every run of slashes
 * collapsed into one. `filepath.Split` is the split after the last '/'.
 */
module Paths {
  import opened Wrappers

  // -----------------------------------------------------------------------
  // String helpers of the standard library
  // -----------------------------------------------------------------------

  /** strings.LastIndex for one character: the last position holding `c`, or -1. */
  function LastIndex(s: string, c: char): (r: int)
    ensures -1 <= r < |s|
    ensures r == -1 <==> c !in s
    ensures r >= 0 ==> s[r] == c && c !in s[r + 1..]
  {
    if s == [] then -1
    else if s[|s| - 1] == c then |s| - 1
    else
      var r := LastIndex(s[..|s| - 1], c);
      assert r >= 0 ==> s[r + 1..] == s[..|s| - 1][r + 1..] + [s[|s| - 1]];
      assert s == s[..|s| - 1] + [s[|s| - 1]];
      r
  }

  /** filepath.Split: everything through the last '/', and the rest. */
  function Split(s: string): (r: (string, string))
    ensures r.0 + r.1 == s && '/' !in r.1
    ensures r.0 == [] || r.0[|r.0| - 1] == '/'
  {
    var i := LastIndex(s, '/');
    (s[..i + 1], s[i + 1..])
  }

  /** No two slashes in a row. */
  predicate NoDouble(s: string)
  {
    forall j, k :: 0 <= j < |s| && 0 <= k < |s| && k == j + 1 ==> !(s[j] == '/' && s[k] == '/')
  }

  /** strings.Index(s, "//"): the first position of two slashes in a row, or -1. */
  function IndexDouble(s: string): (r: int)
    ensures -1 <= r
    ensures r == -1 <==> NoDouble(s)
    ensures r >= 0 ==> r < |s| - 1 && s[r] == '/' && s[r + 1] == '/'
    ensures r >= 0 ==> NoDouble(s[..r + 1])
  {
    if |s| < 2 then -1
    else if s[0] == '/' && s[1] == '/' then 0
    else
      var r := IndexDouble(s[1..]);
      assert NoDouble(s[1..]) ==> NoDouble(s) by {
        if NoDouble(s[1..]) {
          forall j | 0 <= j < |s| - 1
            ensures !(s[j] == '/' && s[j + 1] == '/')
          {
            if j > 0 {
              assert s[j] == s[1..][j - 1] && s[j + 1] == s[1..][j];
            }
          }
        }
      }
      if r == -1 then -1
      else
        assert s[r + 1] == s[1..][r] && s[r + 2] == s[1..][r + 1];
        assert NoDouble(s[..r + 2]) by {
          var t := s[..r + 2];
          forall j | 0 <= j < |t| - 1
            ensures !(t[j] == '/' && t[j + 1] == '/')
          {
            if j > 0 {
              assert t[j] == s[1..][..r + 1][j - 1] && t[j + 1] == s[1..][..r + 1][j];
            }
          }
        }
        r + 1
  }

  /** strings.Replace(s, "//", "/", -1): every non-overlapping "//", left to right, becomes "/". */
  function ReplaceDouble(s: string): (r: string)
    ensures |r| <= |s|
  {
    if |s| >= 2 && s[0] == '/' && s[1] == '/' then "/" + ReplaceDouble(s[2..])
    else if s == [] then []
    else [s[0]] + ReplaceDouble(s[1..])
  }

  /** One replacement pass over a string with two slashes in a row shortens it. */
  lemma {:induction false} ReplaceShortens(s: string)
    requires !NoDouble(s)
    ensures |ReplaceDouble(s)| < |s|
  {
    if !(s[0] == '/' && s[1] == '/') {
      var j :| 0 <= j < |s| - 1 && s[j] == '/' && s[j + 1] == '/';
      assert s[1..][j - 1] == s[j] && s[1..][j] == s[j + 1];
      ReplaceShortens(s[1..]);
    }
  }

  // -----------------------------------------------------------------------
  // Slash runs
  // -----------------------------------------------------------------------

  /** The reference for deduplicateSlash: every run of slashes collapsed into one. */
  function Squash(s: string): string
  {
    if |s| >= 2 && s[0] == '/' && s[1] == '/' then Squash(s[1..])
    else if s == [] then []
    else [s[0]] + Squash(s[1..])
  }

  /**
   * A replacement pass keeps the collapsed form, also behind a slash: the
   * loop of deduplicateSlash never changes what it converges to.
   */
  lemma {:induction false} SquashReplace(s: string)
    ensures Squash(ReplaceDouble(s)) == Squash(s)
    ensures Squash("/" + ReplaceDouble(s)) == Squash("/" + s)
    decreases |s|
  {
    if |s| >= 2 && s[0] == '/' && s[1] == '/' {
      var w := s[2..];
      SquashReplace(w);
      assert ReplaceDouble(s) == "/" + ReplaceDouble(w);
      assert ("/" + s)[1..] == s && s[1..] == "/" + w;
      assert ("/" + ReplaceDouble(s))[1..] == ReplaceDouble(s);
    } else if s != [] {
      var w := s[1..];
      SquashReplace(w);
      assert ReplaceDouble(s) == [s[0]] + ReplaceDouble(w);
      assert ("/" + s)[1..] == s;
      if s[0] == '/' {
        assert ("/" + ReplaceDouble(s))[1..] == ReplaceDouble(s);
        assert w == [] || w[0] != '/';
        assert s == "/" + w;
      } else {
        assert ("/" + ReplaceDouble(s))[1..] == ReplaceDouble(s);
      }
    }
  }

  /** A string without two slashes in a row is its own collapsed form. */
  lemma {:induction false} SquashNoDouble(s: string)
    requires NoDouble(s)
    ensures Squash(s) == s
  {
    if s != [] {
      assert NoDouble(s[1..]) by {
        forall j | 0 <= j < |s[1..]| - 1
          ensures !(s[1..][j] == '/' && s[1..][j + 1] == '/')
        {
          assert s[1..][j] == s[j + 1] && s[1..][j + 1] == s[j + 2];
        }
      }
      SquashNoDouble(s[1..]);
    }
  }

  /** deduplicateSlash: replace "//" by "/" until none is left. */
  method DeduplicateSlash(path: string) returns (p: string)
    ensures p == Squash(path) && NoDouble(p)
  {
    p := path;
    var i := IndexDouble(p);
    while i != -1
      invariant Squash(p) == Squash(path)
      invariant i == -1 <==> NoDouble(p)
      decreases |p|
    {
      ReplaceShortens(p);
      SquashReplace(p);
      p := ReplaceDouble(p);
      i := IndexDouble(p);
    }
    SquashNoDouble(p);
  }

  /** removeUrlPrefix: everything after the last ':', or all of it when there is none. */
  function RemoveUrlPrefix(path: string): (r: string)
    ensures ':' !in r && |r| <= |path| && r == path[|path| - |r|..]
    ensures ':' !in path ==> r == path
    ensures ':' in path ==> |r| < |path| && path[|path| - |r| - 1] == ':'
  {
    var i := LastIndex(path, ':');
    if i != -1 then path[i + 1..] else path
  }

  /** Collapsing slash runs leaves none and brings in no character. */
  lemma {:induction false} SquashShape(s: string)
    ensures NoDouble(Squash(s))
    ensures forall c :: c in Squash(s) ==> c in s
    ensures s != [] && s[0] != '/' ==> Squash(s) != [] && Squash(s)[0] == s[0]
    ensures s != [] && s[0] == '/' ==> Squash(s) != [] && Squash(s)[0] == '/'
  {
    if |s| >= 2 && s[0] == '/' && s[1] == '/' {
      SquashShape(s[1..]);
    } else if s != [] {
      var t := s[1..];
      SquashShape(t);
      var r := Squash(s);
      assert r == [s[0]] + Squash(t);
      forall j | 0 <= j < |r| - 1
        ensures !(r[j] == '/' && r[j + 1] == '/')
      {
        if j > 0 {
          assert r[j] == Squash(t)[j - 1] && r[j + 1] == Squash(t)[j];
        }
      }
    }
  }

  /** Behind a path ending in '/', one more slash collapses away. */
  lemma {:induction false} SquashJoin(a: string, b: string)
    requires a != [] && a[|a| - 1] == '/'
    ensures Squash(a + "/" + b) == Squash(a + b)
  {
    if |a| == 1 {
      assert a + "/" + b == "/" + ("/" + b) && a + b == "/" + b;
      assert (a + "/" + b)[1..] == "/" + b;
    } else {
      var a' := a[1..];
      SquashJoin(a', b);
      assert (a + "/" + b)[1..] == a' + "/" + b && (a + b)[1..] == a' + b;
      assert (a + "/" + b)[0] == a[0] == (a + b)[0] && (a + "/" + b)[1] == a[1] == (a + b)[1];
    }
  }

  /** Two strings without slash runs, not joined slash to slash, make one without. */
  lemma NoDoubleConcat(a: string, b: string)
    requires NoDouble(a) && NoDouble(b)
    requires a == [] || b == [] || a[|a| - 1] != '/' || b[0] != '/'
    ensures NoDouble(a + b)
  {
    var s := a + b;
    forall j | 0 <= j < |s| - 1
      ensures !(s[j] == '/' && s[j + 1] == '/')
    {
      if j + 1 < |a| {
        assert s[j] == a[j] && s[j + 1] == a[j + 1];
      } else if j >= |a| {
        assert s[j] == b[j - |a|] && s[j + 1] == b[j - |a| + 1];
      }
    }
  }

  // -----------------------------------------------------------------------
  // NewPath, Append, String
  // -----------------------------------------------------------------------

  /** A normalised path: not empty, ending in '/', without slash runs and without ':'. */
  predicate Normal(p: string)
  {
    |p| > 0 && p[|p| - 1] == '/' && NoDouble(p) && ':' !in p
  }

  const NilPath := "Nil path."
  const NoSlashes := "No slashes at all. Appending slash to end of string."
  const NoTrailing := "No trailing slash. Removed last item in path."

  /** What NewPath switches on: the input without its URL prefix and slash runs. */
  function Cleaned(path: string): (n: string)
    ensures NoDouble(n) && ':' !in n
  {
    SquashShape(RemoveUrlPrefix(path));
    Squash(RemoveUrlPrefix(path))
  }

  /**
   * NewPath's switch on the cleaned string: no path for an empty one; the
   * string itself when it ends in '/'; a '/' appended when it has none;
   * otherwise everything through its last '/'. Each case but the second
   * reports its error.
   */
  function Trailing(n: string): (r: (Option<string>, Option<string>))
    requires NoDouble(n) && ':' !in n
    ensures r.0.None? <==> n == []
    ensures r.0.None? ==> r.1 == Some(NilPath)
    ensures r.1.None? <==> n != [] && n[|n| - 1] == '/'
    ensures r.1.None? ==> r.0 == Some(n)
    ensures r.0.Some? ==> Normal(r.0.value) && |r.0.value| <= |n| + 1
    ensures r.0.Some? && '/' in n ==> r.0.value <= n
    ensures n != [] && '/' !in n ==> r == (Some(n + "/"), Some(NoSlashes))
    ensures n != [] && n[|n| - 1] != '/' && '/' in n ==> r == (Some(Split(n).0), Some(NoTrailing))
  {
    if |n| == 0 then (None, Some(NilPath))
    else if n[|n| - 1] == '/' then (Some(n), None)
    else if LastIndex(n, '/') == -1 then
      NoDoubleConcat(n, "/");
      (Some(n + "/"), Some(NoSlashes))
    else
      var d := Split(n).0;
      assert d == n[..|d|] && d != [];
      assert NoDouble(d) by {
        forall j | 0 <= j < |d| - 1
          ensures !(d[j] == '/' && d[j + 1] == '/')
        {
          assert d[j] == n[j] && d[j + 1] == n[j + 1];
        }
      }
      (Some(d), Some(NoTrailing))
  }

  /** NewPath: the path and error the switch gives for the cleaned input. */
  method NewPath(path: string) returns (p: Option<string>, err: Option<string>)
    ensures (p, err) == Trailing(Cleaned(path))
  {
    var s := RemoveUrlPrefix(path);
    s := DeduplicateSlash(s);
    assert s == Cleaned(path);
    var r := Trailing(s);
    p, err := r.0, r.1;
  }

  /** Path.String: "<nil>" for a nil path. */
  function PathString(p: Option<string>): (r: string)
    ensures p.None? ==> r == "<nil>"
    ensures p.Some? ==> r == p.value
  {
    if p.None? then "<nil>" else p.value
  }

  /** What Append gives: the receiver for a nil sub-path, else the two joined by '/' and made a path. */
  function Joined(p: Option<string>, sub: Option<string>): (r: Option<string>)
    ensures sub.None? ==> r == p
    ensures sub.Some? && r.Some? ==> Normal(r.value)
  {
    if sub.None? then p else Trailing(Cleaned(PathString(p) + "/" + sub.value)).0
  }

  /** Path.Append. */
  method Append(p: Option<string>, sub: Option<string>) returns (r: Option<string>)
    ensures r == Joined(p, sub)
  {
    if sub.None? {
      return p;
    }
    var err;
    r, err := NewPath(PathString(p) + "/" + sub.value);
  }

  /** A normalised path is kept as it is, without an error: NewPath is idempotent. */
  lemma NewPathIdempotent(p: string)
    requires Normal(p)
    ensures Trailing(Cleaned(p)) == (Some(p), None)
  {
    assert RemoveUrlPrefix(p) == p;
    SquashNoDouble(p);
    assert Cleaned(p) == p;
    var r := Trailing(p);
    assert r.1.None?;
  }

  /** Every path NewPath hands out is normalised, so making a path of it again changes nothing. */
  lemma NewPathNormal(path: string)
    requires Trailing(Cleaned(path)).0.Some?
    ensures Normal(Trailing(Cleaned(path)).0.value)
    ensures Trailing(Cleaned(Trailing(Cleaned(path)).0.value)) == (Trailing(Cleaned(path)).0, None)
  {
    NewPathIdempotent(Trailing(Cleaned(path)).0.value);
  }

  /** A normalised path without its leading slash: still free of slash runs and colons, and not starting with '/'. */
  lemma SlashDropped(b: string, b': string)
    requires Normal(b) && b' == if b[0] == '/' then b[1..] else b
    ensures NoDouble(b') && ':' !in b' && (b' == [] || b'[0] != '/')
    ensures b' == [] || b'[|b'| - 1] == '/'
    ensures b[0] == '/' ==> b == "/" + b'
  {
    assert NoDouble(b') by {
      forall j | 0 <= j < |b'| - 1
        ensures !(b'[j] == '/' && b'[j + 1] == '/')
      {
        if b[0] == '/' {
          assert b'[j] == b[j + 1] && b'[j + 1] == b[j + 2];
        }
      }
    }
    if b[0] == '/' && |b| > 1 {
      assert b'[0] == b[1] != '/';
    }
  }

  /** Joining two normalised paths by '/' collapses to the first followed by the second without its leading slash. */
  lemma JoinSquashed(a: string, b: string, b': string)
    requires Normal(a) && Normal(b) && b' == if b[0] == '/' then b[1..] else b
    ensures Squash(a + "/" + b) == a + b' && Normal(a + b')
  {
    SlashDropped(b, b');
    SquashJoin(a, b);
    if b[0] == '/' {
      assert a + b == a + "/" + b';
      SquashJoin(a, b');
    }
    NoDoubleConcat(a, b');
    SquashNoDouble(a + b');
    if b' == [] {
      assert a + b' == a;
    } else {
      assert (a + b')[|a + b'| - 1] == b'[|b'| - 1];
    }
  }

  /** Appending one normalised path to another concatenates them, the slash between them collapsed. */
  lemma AppendJoins(a: string, b: string)
    requires Normal(a) && Normal(b)
    ensures Joined(Some(a), Some(b)) == Some(a + if b[0] == '/' then b[1..] else b)
  {
    var b' := if b[0] == '/' then b[1..] else b;
    JoinSquashed(a, b, b');
    var s := a + "/" + b;
    assert ':' !in s;
    assert RemoveUrlPrefix(s) == s;
    assert Cleaned(s) == a + b';
    NewPathIdempotent(a + b');
  }

  /** A name without '/' and ':' becomes a path by a '/' appended, with its error. */
  lemma NoSlashPath(n: string)
    requires n != [] && '/' !in n && ':' !in n
    ensures Trailing(Cleaned(n)) == (Some(n + "/"), Some(NoSlashes))
  {
    assert NoDouble(n);
    SquashNoDouble(n);
  }
}
