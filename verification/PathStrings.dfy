/**
 Paths as strings in inf24-1.cpp: splitting at a separator (dir_splitter), appending with
 the `/` of std::filesystem, and cutting off a directory prefix (delete_pref).
 */
module PathStrings {

  // ----- dir_splitter -----

  predicate Free(s: string, c: char) {
    forall i | 0 <= i < |s| :: s[i] != c
  }

  /** The length of the longest prefix of s without c. */
  function Run(s: string, c: char): (n: nat)
    ensures n <= |s| && Free(s[..n], c) && (n < |s| ==> s[n] == c)
  {
    if s == "" || s[0] == c then 0
    else
      assert s[1..][..Run(s[1..], c)] == s[..1 + Run(s[1..], c)][1..];
      1 + Run(s[1..], c)
  }

  /** The maximal non-empty pieces of s without c. */
  function Split(s: string, c: char): seq<string>
    decreases |s|
  {
    if s == "" then []
    else if s[0] == c then Split(s[1..], c)
    else [s[..Run(s, c)]] + Split(s[Run(s, c)..], c)
  }

  function Join(parts: seq<string>, c: char): string {
    if parts == [] then ""
    else if |parts| == 1 then parts[0]
    else parts[0] + [c] + Join(parts[1..], c)
  }

  predicate Piece(s: string, c: char) {
    s != "" && Free(s, c)
  }

  function Concat(parts: seq<string>): string {
    if parts == [] then "" else parts[0] + Concat(parts[1..])
  }

  function Without(s: string, c: char): string {
    if s == "" then "" else (if s[0] == c then "" else [s[0]]) + Without(s[1..], c)
  }

  lemma {:induction false} RunOfPiece(p: string, rest: string, c: char)
    requires Free(p, c) && (rest == "" || rest[0] == c)
    ensures Run(p + rest, c) == |p|
  {
    if p == "" {
      assert p + rest == rest;
    } else {
      assert (p + rest)[1..] == p[1..] + rest;
      RunOfPiece(p[1..], rest, c);
    }
  }

  /** A piece in front is split off. */
  lemma SplitPiece(p: string, rest: string, c: char)
    requires Piece(p, c) && (rest == "" || rest[0] == c)
    ensures Split(p + rest, c) == [p] + Split(rest, c)
  {
    RunOfPiece(p, rest, c);
    assert (p + rest)[..|p|] == p && (p + rest)[|p|..] == rest;
  }

  /** Splitting undoes joining. */
  lemma {:induction false} SplitOfJoin(parts: seq<string>, c: char)
    requires forall p | p in parts :: Piece(p, c)
    ensures Split(Join(parts, c), c) == parts
  {
    if |parts| == 1 {
      assert parts[0] + "" == parts[0];
      SplitPiece(parts[0], "", c);
      assert parts == [parts[0]] + [];
    } else if |parts| > 1 {
      var rest := [c] + Join(parts[1..], c);
      assert parts[0] + [c] + Join(parts[1..], c) == parts[0] + rest;
      SplitPiece(parts[0], rest, c);
      assert rest[1..] == Join(parts[1..], c);
      SplitOfJoin(parts[1..], c);
      assert parts == [parts[0]] + parts[1..];
    }
  }

  lemma {:induction false} WithoutConcat(a: string, b: string, c: char)
    requires Free(a, c)
    ensures Without(a + b, c) == a + Without(b, c)
  {
    if a == "" {
      assert a + b == b;
    } else {
      assert (a + b)[1..] == a[1..] + b;
      WithoutConcat(a[1..], b, c);
    }
  }

  /** Every part is a piece, and the parts together are the input without the separators. */
  lemma {:induction false} SplitParts(s: string, c: char)
    ensures forall p | p in Split(s, c) :: Piece(p, c)
    ensures Concat(Split(s, c)) == Without(s, c)
    decreases |s|
  {
    if s != "" {
      if s[0] == c {
        SplitParts(s[1..], c);
      } else {
        var n := Run(s, c);
        SplitParts(s[n..], c);
        assert s == s[..n] + s[n..];
        WithoutConcat(s[..n], s[n..], c);
      }
    }
  }

  /** A string without separators is one part, unless it is empty ... */
  lemma SplitWhole(s: string, c: char)
    requires Free(s, c)
    ensures Split(s, c) == if s == "" then [] else [s]
  {
    if s != "" {
      assert s + "" == s;
      SplitPiece(s, "", c);
    }
  }

  /** ... and a separator anywhere divides the parts into those before and those behind it. */
  lemma {:induction false} SplitAtSeparator(a: string, b: string, c: char)
    ensures Split(a + ([c] + b), c) == Split(a, c) + Split(b, c)
    decreases |a|
  {
    var rest := [c] + b;
    if a == "" {
      assert a + rest == rest && rest[1..] == b;
    } else if a[0] == c {
      assert (a + rest)[1..] == a[1..] + rest;
      SplitAtSeparator(a[1..], b, c);
    } else {
      var n := Run(a, c);
      SplitAtSeparator(a[n..], b, c);
      SplitPiece(a[..n], a[n..] + rest, c);
      Reassembled(a, n, rest);
    }
  }

  lemma Reassembled(a: string, n: nat, rest: string)
    requires n <= |a|
    ensures a[..n] + (a[n..] + rest) == a + rest
  {
  }

  /** What is still to be split when i characters are read and `cur` has been collected. */
  function Left(input: string, i: nat, cur: string, c: char): seq<string>
    requires i <= |input|
  {
    Split(cur + input[i..], c)
  }

  /** A separator ends the collected piece, if there is one. */
  lemma Separator(input: string, i: nat, cur: string, c: char)
    requires i < |input| && Free(cur, c) && input[i] == c
    ensures Left(input, i, cur, c) == (if cur == "" then [] else [cur]) + Left(input, i + 1, "", c)
  {
    assert "" + input[i+1..] == input[i..][1..];
    if cur == "" {
      assert cur + input[i..] == input[i..];
    } else {
      SplitPiece(cur, input[i..], c);
    }
  }

  lemma Collected(input: string, i: nat, cur: string, c: char)
    requires i < |input|
    ensures Left(input, i, cur, c) == Left(input, i + 1, cur + [input[i]], c)
  {
    assert cur + input[i..] == (cur + [input[i]]) + input[i+1..];
  }

  lemma Ends(input: string, cur: string, c: char)
    requires Free(cur, c)
    ensures Left(input, |input|, cur, c) == if cur == "" then [] else [cur]
  {
    assert cur + input[|input|..] == cur + "";
    if cur != "" {
      SplitPiece(cur, "", c);
    }
  }

  /** The pieces split off before and after reading character i. */
  lemma Reads(input: string, i: nat, splitted: seq<string>, cur: string, c: char)
    requires i < |input| && Free(cur, c)
    ensures splitted + Left(input, i, cur, c) ==
      if input[i] != c then splitted + Left(input, i + 1, cur + [input[i]], c)
      else (if cur == "" then splitted else splitted + [cur]) + Left(input, i + 1, "", c)
  {
    if input[i] == c {
      Separator(input, i, cur, c);
    } else {
      Collected(input, i, cur, c);
    }
  }

  lemma Starts(input: string, c: char)
    ensures Split(input, c) == [] + Left(input, 0, "", c)
  {
    assert "" + input[0..] == input;
  }

  /** dir_splitter */
  method DirSplitter(input: string, c: char) returns (splitted: seq<string>)
    ensures splitted == Split(input, c)
  {
    splitted := [];
    var cur := "";
    ghost var all := Split(input, c);
    Starts(input, c);
    for i := 0 to |input|
      invariant Free(cur, c) && all == splitted + Left(input, i, cur, c)
    {
      Reads(input, i, splitted, cur, c);
      if input[i] == c {
        if cur != "" {
          splitted := splitted + [cur];
          cur := "";
        }
      } else {
        cur := cur + [input[i]];
      }
    }
    Ends(input, cur, c);
    if cur != "" {
      splitted := splitted + [cur];
    }
  }

  // ----- directory prefixes -----

  /** dir / rel for a non-empty relative rel: a separator is only added where there is none. */
  function Append(dir: string, rel: string): string {
    if dir != "" && dir[|dir|-1] == '/' then dir + rel else dir + "/" + rel
  }

  /** delete_pref: skips the prefix and one more character. */
  function DeletePrefix(path: string, prefix: string): string
    requires |prefix| + 1 <= |path|
  {
    path[|prefix|+1..]
  }

  /** A directory without a trailing separator gets one, and the relative path comes back. */
  lemma AppendsSeparator(dir: string, rel: string)
    requires dir != "" && rel != "" && dir[|dir|-1] != '/'
    ensures Append(dir, rel) == dir + ['/'] + rel && DeletePrefix(Append(dir, rel), dir) == rel
  {
    assert (dir + "/" + rel)[|dir|+1..] == rel;
  }

  /** Behind a trailing separator the character that is cut is the first of the relative path. */
  lemma CutsFirst(dir: string, rel: string)
    requires dir != "" && rel != "" && dir[|dir|-1] == '/'
    ensures Append(dir, rel) == dir + rel
    ensures dir + [rel[0]] + DeletePrefix(Append(dir, rel), dir) == dir + rel
    ensures DeletePrefix(Append(dir, rel), dir) == rel[1..]
  {
    assert (dir + rel)[|dir|+1..] == rel[1..];
  }

  /** The path relative to its directory comes back exactly when the directory has no trailing separator. */
  lemma DeletesExactly(dir: string, rel: string)
    requires dir != "" && rel != ""
    ensures DeletePrefix(Append(dir, rel), dir) == rel <==> dir[|dir|-1] != '/'
  {
    if dir[|dir|-1] != '/' {
      AppendsSeparator(dir, rel);
    } else {
      CutsFirst(dir, rel);
    }
  }

  /** The components of a path; a leading separator is one of its own. */
  function Components(path: string): seq<string> {
    (if path != "" && path[0] == '/' then ["/"] else []) + Split(path, '/')
  }

  /** What preprocess stores as the relative path of the entry with these names below dir. */
  function Key(dir: string, names: seq<string>): seq<string>
    requires dir != ""
  {
    var rel := Join(names, '/');
    if rel == "" then [] else Components(DeletePrefix(Append(dir, rel), dir))
  }

  lemma JoinStarts(names: seq<string>)
    requires names != [] && forall n | n in names :: Piece(n, '/')
    ensures names[0] != "" && Join(names, '/') != "" && Join(names, '/')[0] == names[0][0] != '/'
  {
    assert Piece(names[0], '/');
  }

  /** Names that are not empty and have no separator are the components of their joined path. */
  lemma ComponentsOfJoin(names: seq<string>)
    requires names != [] && forall n | n in names :: Piece(n, '/')
    ensures Components(Join(names, '/')) == names
  {
    JoinStarts(names);
    SplitOfJoin(names, '/');
  }

  /** With a separator in front, that is one more component. */
  lemma ComponentsBehindRoot(names: seq<string>)
    requires names != [] && forall n | n in names :: Piece(n, '/')
    ensures Components(['/'] + Join(names, '/')) == ["/"] + names
  {
    SplitOfJoin(names, '/');
    assert (['/'] + Join(names, '/'))[1..] == Join(names, '/');
  }

  /** What follows the first of the joined parts. */
  function Behind(parts: seq<string>): string {
    if |parts| <= 1 then "" else ['/'] + Join(parts[1..], '/')
  }

  lemma JoinHead(first: string, names: seq<string>)
    requires names != []
    ensures Join([first] + names[1..], '/') == first + Behind(names)
  {
    assert ([first] + names[1..])[1..] == names[1..];
  }

  lemma WithoutFirst(first: string, rest: string)
    requires first != ""
    ensures (first + rest)[1..] == first[1..] + rest
  {
  }

  lemma JoinCut(names: seq<string>)
    requires names != [] && names[0] != ""
    ensures Join(names, '/') != ""
    ensures |names[0]| > 1 ==> Join(names, '/')[1..] == Join([names[0][1..]] + names[1..], '/')
    ensures |names[0]| == 1 ==> Join(names, '/')[1..] == Behind(names)
  {
    JoinHead(names[0], names);
    assert [names[0]] + names[1..] == names;
    WithoutFirst(names[0], Behind(names));
    JoinHead(names[0][1..], names);
  }

  /**
   For a directory with a trailing separator the stored path is that of the joined names without
   the first character: the first name loses it, or vanishes and leaves its separator.
   */
  lemma KeyIsCut(dir: string, names: seq<string>)
    requires dir != "" && dir[|dir|-1] == '/' && names != [] && forall n | n in names :: Piece(n, '/')
    ensures Join(names, '/') != "" && Key(dir, names) == Components(Join(names, '/')[1..])
    ensures |names[0]| > 1 ==> Key(dir, names) == [names[0][1..]] + names[1..]
    ensures |names[0]| == 1 ==> Key(dir, names) == if |names| == 1 then [] else ["/"] + names[1..]
  {
    JoinStarts(names);
    JoinCut(names);
    CutsFirst(dir, Join(names, '/'));
    assert Piece(names[0], '/');
    if |names[0]| > 1 {
      assert Piece(names[0][1..], '/');
      ComponentsOfJoin([names[0][1..]] + names[1..]);
    } else if |names| > 1 {
      ComponentsBehindRoot(names[1..]);
    }
  }

  /** The stored path of an entry is its own exactly when the directory has no trailing separator. */
  lemma KeyExactly(dir: string, names: seq<string>)
    requires dir != "" && names != [] && forall n | n in names :: Piece(n, '/')
    ensures Key(dir, names) == names <==> dir[|dir|-1] != '/'
  {
    JoinStarts(names);
    if dir[|dir|-1] != '/' {
      AppendsSeparator(dir, Join(names, '/'));
      ComponentsOfJoin(names);
    } else {
      KeyIsCut(dir, names);
    }
  }
}
