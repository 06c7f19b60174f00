/**
  RequestHandler.translate_path from letsencrypt_auto/tests/auto_test.py,
  with the library string and path helpers it relies on: `str.split`,
  `'/'.join`, Python 2 `urllib.unquote`, `posixpath.normpath`,
  `posixpath.split` and `posixpath.join`.
*/
module PathTranslation {
  import Seqs

  // ---------------------------------------------------------------------
  // str.split and str.join

  /** `s.split(c, 1)[0]`: everything before the first c. */
  function Before(s: string, c: char): (r: string)
    ensures r <= s && c !in r
    ensures |r| < |s| ==> s[|r|] == c
  {
    if s == [] || s[0] == c then [] else [s[0]] + Before(s[1..], c)
  }

  /** `s.split(c)`: the pieces between occurrences of c, empty ones included. */
  function Split(s: string, c: char): (parts: seq<string>)
    ensures |parts| > 0
    ensures forall p :: p in parts ==> c !in p
  {
    if s == [] then [""]
    else
      var rest := Split(s[1..], c);
      if s[0] == c then [""] + rest else [[s[0]] + rest[0]] + rest[1..]
  }

  /** `c.join(parts)` */
  function Join(parts: seq<string>, c: char): string {
    if parts == [] then ""
    else if |parts| == 1 then parts[0]
    else parts[0] + [c] + Join(parts[1..], c)
  }

  lemma {:induction false} BeforeAfterPrefix(p: string, x: string, c: char)
    requires c !in p
    ensures Before(p + x, c) == p + Before(x, c)
  {
    if p != [] {
      Seqs.ConsSplit(p);
      Seqs.ConsConcat(p, x);
      BeforeAfterPrefix(p[1..], x, c);
      assert Before(p + x, c) == [p[0]] + Before(p[1..] + x, c);
      Seqs.Assoc([p[0]], p[1..], Before(x, c));
    } else {
      assert p + x == x;
    }
  }

  /** Gluing text onto the first piece glues it onto the join. */
  lemma JoinHead(a: string, parts: seq<string>, c: char)
    requires parts != []
    ensures Join([a + parts[0]] + parts[1..], c) == a + Join(parts, c)
  {
    var q := [a + parts[0]] + parts[1..];
    assert q[0] == a + parts[0] && q[1..] == parts[1..];
    if |parts| > 1 {
      Seqs.Assoc(a, parts[0], [c]);
      Seqs.Assoc(a, parts[0] + [c], Join(parts[1..], c));
    }
  }

  /** An empty first piece contributes only its separator. */
  lemma JoinEmptyHead(parts: seq<string>, c: char)
    requires parts != []
    ensures Join([""] + parts, c) == [c] + Join(parts, c)
  {
    assert ([""] + parts)[1..] == parts;
  }

  /** Splitting then joining gives the string back. */
  lemma {:induction false} JoinSplit(s: string, c: char)
    ensures Join(Split(s, c), c) == s
  {
    if s != [] {
      JoinSplit(s[1..], c);
      var rest := Split(s[1..], c);
      Seqs.ConsSplit(s);
      if s[0] == c {
        JoinEmptyHead(rest, c);
      } else {
        JoinHead([s[0]], rest, c);
      }
    }
  }

  lemma {:induction false} SplitWithoutSeparator(s: string, c: char)
    requires c !in s
    ensures Split(s, c) == [s]
  {
    if s != [] {
      Seqs.ConsSplit(s);
      SplitWithoutSeparator(s[1..], c);
    }
  }

  /** Gluing a character onto the first piece commutes with appending pieces. */
  lemma GlueHeadAppend(h: string, r: seq<string>, t: seq<string>)
    requires r != []
    ensures [h + (r + t)[0]] + (r + t)[1..] == ([h + r[0]] + r[1..]) + t
  {
    assert (r + t)[0] == r[0] && (r + t)[1..] == r[1..] + t;
    Seqs.Assoc([h + r[0]], r[1..], t);
  }

  /** Splitting at a separator splits the two sides independently. */
  lemma {:induction false} SplitAtSeparator(x: string, y: string, c: char)
    ensures Split(x + [c] + y, c) == Split(x, c) + Split(y, c)
  {
    var s := x + [c] + y;
    if x == [] {
      assert s == [c] + y && s[1..] == y;
    } else {
      assert s[0] == x[0] && s[1..] == x[1..] + [c] + y;
      SplitAtSeparator(x[1..], y, c);
      var r, t := Split(x[1..], c), Split(y, c);
      if x[0] == c {
        Seqs.Assoc([""], r, t);
      } else {
        GlueHeadAppend([x[0]], r, t);
      }
    }
  }

  /** Joining pieces that hold no separator, then splitting, gives the pieces
      back. */
  lemma {:induction false} SplitJoin(parts: seq<string>, c: char)
    requires |parts| > 0
    requires forall p :: p in parts ==> c !in p
    ensures Split(Join(parts, c), c) == parts
  {
    if |parts| == 1 {
      SplitWithoutSeparator(parts[0], c);
    } else {
      SplitJoin(parts[1..], c);
      SplitAtSeparator(parts[0], Join(parts[1..], c), c);
      SplitWithoutSeparator(parts[0], c);
    }
  }

  lemma {:induction false} JoinAppend(parts: seq<string>, last: string, c: char)
    requires |parts| > 0
    ensures Join(parts + [last], c) == Join(parts, c) + [c] + last
  {
    assert (parts + [last])[0] == parts[0];
    if |parts| > 1 {
      assert (parts + [last])[1..] == parts[1..] + [last];
      JoinAppend(parts[1..], last, c);
    } else {
      assert (parts + [last])[1..] == [last];
    }
  }

  // ---------------------------------------------------------------------
  // urllib.unquote (Python 2)

  predicate IsHex(ch: char) {
    '0' <= ch <= '9' || 'a' <= ch <= 'f' || 'A' <= ch <= 'F'
  }

  function HexValue(ch: char): (v: nat)
    requires IsHex(ch)
    ensures v < 16
  {
    if '0' <= ch <= '9' then (ch as int) - ('0' as int)
    else if 'a' <= ch <= 'f' then (ch as int) - ('a' as int) + 10
    else (ch as int) - ('A' as int) + 10
  }

  /** `s` starts with a `%XX` escape of two hex digits. */
  predicate EscapeAt(s: string) {
    |s| >= 3 && s[0] == '%' && IsHex(s[1]) && IsHex(s[2])
  }

  /** The character a `%XX` escape stands for. */
  function Decoded(s: string): (ch: char)
    requires EscapeAt(s)
    ensures ch as int < 256
  {
    (16 * HexValue(s[1]) + HexValue(s[2])) as char
  }

  /** Replace every `%XX` with two hex digits by the character with that
      code; any other `%` stays as it is. */
  function Unquote(s: string): (r: string)
    ensures |r| <= |s|
    decreases |s|
  {
    if s == [] then []
    else if EscapeAt(s) then [Decoded(s)] + Unquote(s[3..])
    else [s[0]] + Unquote(s[1..])
  }

  lemma {:induction false} UnquoteLiteral(p: string, x: string)
    requires '%' !in p
    ensures Unquote(p + x) == p + Unquote(x)
  {
    if p != [] {
      Seqs.ConsSplit(p);
      Seqs.ConsConcat(p, x);
      UnquoteLiteral(p[1..], x);
      assert Unquote(p + x) == [p[0]] + Unquote(p[1..] + x);
      Seqs.Assoc([p[0]], p[1..], Unquote(x));
    } else {
      assert p + x == x;
    }
  }

  /** A `/` is not a hex digit, so an escape starting in `a` stays in `a`. */
  lemma EscapeBeforeSlash(a: string, b: string)
    requires a != []
    ensures EscapeAt(a + "/" + b) == EscapeAt(a)
    ensures EscapeAt(a) ==> Decoded(a + "/" + b) == Decoded(a)
  {
    var s := a + "/" + b;
    assert s[0] == a[0];
    if |a| >= 3 {
      assert s[1] == a[1] && s[2] == a[2];
    } else if |a| == 2 {
      assert s[2] == '/';
    } else {
      assert s[1] == '/';
    }
  }

  /** A leading `/` is copied as it is. */
  lemma UnquoteSlashFirst(b: string)
    ensures Unquote("/" + b) == "/" + Unquote(b)
  {
    var s := "/" + b;
    assert s[0] == '/' && s[1..] == b;
    assert !EscapeAt(s);
  }

  /** An escape never spans a `/`, so decoding works slash by slash. */
  lemma {:induction false} UnquoteAtSlash(a: string, b: string)
    ensures Unquote(a + "/" + b) == Unquote(a) + "/" + Unquote(b)
    decreases |a|
  {
    if a == [] {
      assert a + "/" + b == "/" + b;
      UnquoteSlashFirst(b);
    } else {
      var s := a + "/" + b;
      EscapeBeforeSlash(a, b);
      var k := if EscapeAt(a) then 3 else 1;
      var d := if EscapeAt(a) then [Decoded(a)] else [a[0]];
      Seqs.Assoc(a, "/", b);
      Seqs.DropConcat(a, "/" + b, k);
      assert s[0] == a[0];
      assert Unquote(s) == d + Unquote(s[k..]);
      assert Unquote(a) == d + Unquote(a[k..]);
      UnquoteAtSlash(a[k..], b);
      Seqs.Assoc(a[k..], "/", b);
      Seqs.Assoc(d, Unquote(a[k..]), "/");
      Seqs.Assoc(d, Unquote(a[k..]) + "/", Unquote(b));
    }
  }

  // ---------------------------------------------------------------------
  // posixpath.normpath

  /** A path component that names a directory entry. */
  predicate IsName(w: string) {
    w != "" && w != "." && w != ".." && '/' !in w
  }

  /** One pass of normpath's loop: skip empty and `.` components, let `..`
      remove the previous component, keep `..` at the front of a relative
      path, drop it at the front of an absolute one. */
  function NormStep(acc: seq<string>, comp: string, absolute: bool): (r: seq<string>)
    ensures forall w :: w in r ==> w in acc || w == comp
    ensures comp == "" || comp == "." ==> r == acc
  {
    if comp == "" || comp == "." then acc
    else if comp != ".." || (!absolute && acc == []) || (acc != [] && acc[|acc| - 1] == "..") then acc + [comp]
    else if acc != [] then acc[..|acc| - 1]
    else acc
  }

  /** normpath's component loop, continued from acc over comps. */
  function Collapse(acc: seq<string>, comps: seq<string>, absolute: bool): (r: seq<string>)
    ensures (forall w :: w in acc ==> w != "" && w != "." && '/' !in w) &&
            (forall w :: w in comps ==> '/' !in w) ==>
              forall w :: w in r ==> w != "" && w != "." && '/' !in w
    decreases |comps|
  {
    if comps == [] then acc
    else
      Seqs.ConsSplit(comps);
      Collapse(NormStep(acc, comps[0], absolute), comps[1..], absolute)
  }

  lemma {:induction false} CollapseAppend(acc: seq<string>, xs: seq<string>, ys: seq<string>, absolute: bool)
    ensures Collapse(acc, xs + ys, absolute) == Collapse(Collapse(acc, xs, absolute), ys, absolute)
    decreases |xs|
  {
    if xs == [] {
      assert xs + ys == ys;
    } else {
      assert (xs + ys)[0] == xs[0] && (xs + ys)[1..] == xs[1..] + ys;
      CollapseAppend(NormStep(acc, xs[0], absolute), xs[1..], ys, absolute);
    }
  }

  /** normpath keeps one leading slash, or two exactly, never three. */
  function InitialSlashes(p: string): (k: nat)
    ensures k <= 2 && (k > 0 <==> |p| > 0 && p[0] == '/')
  {
    if |p| > 0 && p[0] == '/' then
      if |p| >= 2 && p[1] == '/' && !(|p| >= 3 && p[2] == '/') then 2 else 1
    else 0
  }

  function LeadingSlashes(k: nat): string {
    if k == 2 then "//" else if k == 1 then "/" else ""
  }

  /** The components normpath keeps for p. */
  function NormComponents(p: string): (r: seq<string>)
    ensures forall w :: w in r ==> w != "" && w != "." && '/' !in w
  {
    Collapse([], Split(p, '/'), InitialSlashes(p) > 0)
  }

  /** posixpath.normpath */
  function NormPath(p: string): (r: string)
    ensures r != ""
    ensures |p| > 0 && p[0] == '/' ==> r[0] == '/'
  {
    if p == "" then "."
    else
      var r := LeadingSlashes(InitialSlashes(p)) + Join(NormComponents(p), '/');
      if r == "" then "." else r
  }

  // ---------------------------------------------------------------------
  // translate_path

  /** `filter(None, words)`: drop the empty strings. */
  function NonEmpty(words: seq<string>): (r: seq<string>)
    ensures forall w :: w in r ==> w in words && w != ""
  {
    if words == [] then []
    else (if words[0] != "" then [words[0]] else []) + NonEmpty(words[1..])
  }

  lemma {:induction false} NonEmptyAppend(xs: seq<string>, ys: seq<string>)
    ensures NonEmpty(xs + ys) == NonEmpty(xs) + NonEmpty(ys)
  {
    if xs == [] {
      assert xs + ys == ys;
    } else {
      assert (xs + ys)[0] == xs[0] && (xs + ys)[1..] == xs[1..] + ys;
      NonEmptyAppend(xs[1..], ys);
    }
  }

  /** The words translate_path iterates over. */
  function Words(path: string): (r: seq<string>)
    ensures forall w :: w in r ==> w != "" && '/' !in w
  {
    NonEmpty(Split(NormPath(Unquote(Before(Before(path, '?'), '#'))), '/'))
  }

  /** The words the loop keeps: `.` and `..` are skipped. */
  function Kept(words: seq<string>): (r: seq<string>)
    ensures forall w :: w in r ==> w in words && w != "." && w != ".."
  {
    if words == [] then []
    else
      var last := words[|words| - 1];
      Kept(words[..|words| - 1]) + (if last == "." || last == ".." then [] else [last])
  }

  /** The components translate_path appends under the root. */
  function Names(path: string): seq<string> {
    Kept(Words(path))
  }

  /** `posixpath.join(a, b)` */
  function PathJoin(a: string, b: string): (r: string)
    ensures |b| > 0 && b[0] == '/' ==> r == b
    ensures !(|b| > 0 && b[0] == '/') ==> |r| >= |a| + |b| && r[..|a|] == a && r[|r| - |b|..] == b
  {
    if |b| > 0 && b[0] == '/' then b
    else if a == "" || a[|a| - 1] == '/' then a + b
    else a + "/" + b
  }

  /** `posixpath.split(w)[1]`: what follows the last slash. */
  function Tail(w: string): (t: string)
    ensures '/' !in t
    ensures '/' !in w ==> t == w
  {
    var parts := Split(w, '/');
    assert parts[|parts| - 1] in parts;
    if '/' !in w then SplitWithoutSeparator(w, '/'); parts[|parts| - 1]
    else parts[|parts| - 1]
  }

  /** The root joined with each name in turn. */
  function JoinAll(root: string, names: seq<string>): string {
    if names == [] then root
    else PathJoin(JoinAll(root, names[..|names| - 1]), names[|names| - 1])
  }

  lemma KeptAppend(words: seq<string>, w: string)
    ensures Kept(words + [w]) == Kept(words) + (if w == "." || w == ".." then [] else [w])
  {
    assert (words + [w])[..|words|] == words;
  }

  lemma JoinAllAppend(root: string, names: seq<string>, w: string)
    ensures JoinAll(root, names + [w]) == PathJoin(JoinAll(root, names), w)
  {
    assert (names + [w])[..|names|] == names;
  }

  /** One turn of translate_path's loop: a slash-free word is its own tail,
      and it is kept unless it is `.` or `..`. */
  lemma KeptStep(words: seq<string>, i: nat)
    requires i < |words| && '/' !in words[i]
    ensures Tail(words[i]) == words[i]
    ensures Kept(words[..i + 1]) ==
            if words[i] == "." || words[i] == ".." then Kept(words[..i]) else Kept(words[..i]) + [words[i]]
  {
    assert words[..i + 1] == words[..i] + [words[i]];
    KeptAppend(words[..i], words[i]);
    Seqs.AppendEmpty(Kept(words[..i]));
    SplitWithoutSeparator(words[i], '/');
  }

  /** What translate_path returns. */
  function Translated(root: string, path: string): string {
    JoinAll(root, Names(path))
  }

  class RequestHandler {
    /** The folder being served. */
    const root: string

    constructor(root: string)
      ensures this.root == root
    {
      this.root := root;
    }

    /** Map a request path onto a file under root. */
    method TranslatePath(path: string) returns (r: string)
      ensures r == Translated(root, path)
    {
      var p := Before(path, '?');
      p := Before(p, '#');
      p := NormPath(Unquote(p));
      var words := NonEmpty(Split(p, '/'));
      r := root;
      for i := 0 to |words|
        invariant r == JoinAll(root, Kept(words[..i]))
      {
        assert words[i] in words;
        KeptStep(words, i);
        var word := Tail(words[i]);
        if word == "." || word == ".." {
          continue;
        }
        JoinAllAppend(root, Kept(words[..i]), word);
        r := PathJoin(r, word);
      }
      assert words[..|words|] == words;
    }
  }

  // ---------------------------------------------------------------------
  // Properties of translate_path

  /** Every appended component is a proper name: not empty, not `.` or `..`,
      and free of `/`. */
  lemma NamesAreNames(path: string)
    ensures forall w :: w in Names(path) ==> IsName(w)
  {
  }

  /** The separator posixpath.join puts after the root. */
  function Separator(root: string): string {
    if root == "" || root[|root| - 1] == '/' then "" else "/"
  }

  /** Joining a name onto a path that does not end in `/` adds one `/`. */
  lemma PathJoinName(x: string, j: string, name: string)
    requires |j| > 0 && j[|j| - 1] != '/'
    requires name != [] && name[0] != '/'
    ensures PathJoin(x + j, name) == x + (j + "/" + name)
  {
    var prev := x + j;
    assert prev[|prev| - 1] == j[|j| - 1];
  }

  /** One name joined onto the root. */
  lemma JoinAllOne(root: string, name: string)
    requires name != [] && name[0] != '/'
    ensures JoinAll(root, [name]) == root + Separator(root) + Join([name], '/')
  {
    assert [name][..0] == [];
  }

  lemma {:induction false} JoinAllNames(root: string, names: seq<string>)
    requires |names| > 0
    requires forall w :: w in names ==> IsName(w)
    ensures JoinAll(root, names) == root + Separator(root) + Join(names, '/')
  {
    var init, last := names[..|names| - 1], names[|names| - 1];
    Seqs.SnocSplit(names);
    assert IsName(last);
    assert last[0] != '/' by { assert last[0] in last; }
    if init == [] {
      assert names == [last];
      JoinAllOne(root, last);
    } else {
      JoinAllNames(root, init);
      JoinEndsWith(init);
      PathJoinName(root + Separator(root), Join(init, '/'), last);
      JoinAppend(init, last, '/');
    }
  }

  lemma {:induction false} JoinEndsWith(names: seq<string>)
    requires |names| > 0
    requires forall w :: w in names ==> IsName(w)
    ensures var j := Join(names, '/'); |j| > 0 && j[|j| - 1] != '/'
  {
    var last := names[|names| - 1];
    assert last in names;
    if |names| > 1 {
      var init := names[..|names| - 1];
      assert init + [last] == names;
      JoinAppend(init, last, '/');
    }
  }

  /**
    The translated path is the root itself, or the root, a separator, and
    the names joined by `/`; splitting what follows the separator gives
    back exactly those names, none of which is `.` or `..`, so the result
    never climbs out of the root.
  */
  lemma TranslatedUnderRoot(root: string, path: string)
    ensures var t, names := Translated(root, path), Names(path);
            if names == [] then t == root
            else
              && t == root + Separator(root) + Join(names, '/')
              && Split(t[|root| + |Separator(root)|..], '/') == names
              && forall w :: w in names ==> IsName(w)
  {
    var t, names := Translated(root, path), Names(path);
    if names != [] {
      JoinAllNames(root, names);
      assert t[|root| + |Separator(root)|..] == Join(names, '/');
      SplitJoin(names, '/');
    }
  }

  /** The translated path always starts with the root. */
  lemma TranslatedStartsWithRoot(root: string, path: string)
    ensures root <= Translated(root, path)
  {
    TranslatedUnderRoot(root, path);
  }

  /** Everything from the first `?` is ignored. */
  lemma QueryIgnored(root: string, path: string, query: string)
    requires '?' !in path
    ensures Translated(root, path + "?" + query) == Translated(root, path)
  {
    BeforeAfterPrefix(path, "?" + query, '?');
    assert path + "?" + query == path + ("?" + query);
    BeforeAfterPrefix(path, "", '?');
    assert path + "" == path;
  }

  /** Everything from the first `#` is ignored as well. */
  lemma FragmentIgnored(root: string, path: string, fragment: string)
    requires '?' !in path && '#' !in path
    ensures Translated(root, path + "#" + fragment) == Translated(root, path)
  {
    assert path + "#" + fragment == path + ("#" + fragment);
    BeforeAfterPrefix(path, "#" + fragment, '?');
    var cut := Before("#" + fragment, '?');
    BeforeAfterPrefix(path, cut, '#');
    BeforeAfterPrefix(path, "", '?');
    BeforeAfterPrefix(path, "", '#');
    assert path + "" == path;
  }

  /** A leading slash only adds an empty piece, which the filter drops. */
  lemma WordsAfterSlash(x: string)
    ensures NonEmpty(Split("/" + x, '/')) == NonEmpty(Split(x, '/'))
  {
    assert "/" + x == [] + "/" + x;
    SplitAtSeparator([], x, '/');
    NonEmptyAppend([""], Split(x, '/'));
    assert NonEmpty([""]) == [];
  }

  /** Splitting the joined components, after any leading slashes, and
      dropping the empty pieces gives the components back. */
  lemma WordsOfJoined(comps: seq<string>, k: nat)
    requires comps != [] && k <= 2
    requires forall w :: w in comps ==> w != "" && '/' !in w
    ensures NonEmpty(Split(LeadingSlashes(k) + Join(comps, '/'), '/')) == comps
  {
    var j := Join(comps, '/');
    SplitJoin(comps, '/');
    NonEmptyOfNonEmpty(comps);
    if k == 1 {
      WordsAfterSlash(j);
    } else if k == 2 {
      assert LeadingSlashes(k) + j == "/" + ("/" + j);
      WordsAfterSlash("/" + j);
      WordsAfterSlash(j);
    } else {
      assert LeadingSlashes(k) + j == j;
    }
  }

  /** `/` and `//` hold no words. */
  lemma WordsOfSlashes(k: nat)
    requires 1 <= k <= 2
    ensures NonEmpty(Split(LeadingSlashes(k), '/')) == []
  {
    assert Split("/", '/') == [""] + Split("", '/');
    if k == 2 {
      assert Split("//", '/') == [""] + Split("/", '/');
      NonEmptyOfEmpties(Split("//", '/'));
    }
  }

  /** normpath leaves, after splitting at `/` and dropping empty pieces,
      exactly its collapsed components (or `.` for an empty relative path). */
  lemma NormPathWords(u: string)
    ensures var comps := NormComponents(u);
            NonEmpty(Split(NormPath(u), '/')) ==
              if comps == [] && InitialSlashes(u) == 0 then ["."] else comps
  {
    var comps := NormComponents(u);
    var k := InitialSlashes(u);
    if comps == [] && k == 0 {
      assert NormPath(u) == ".";
      SplitWithoutSeparator(".", '/');
      NonEmptyOfNonEmpty(["."]);
    } else {
      assert u != "";
      var r := LeadingSlashes(k) + Join(comps, '/');
      if comps != [] {
        assert forall w :: w in Split(u, '/') ==> '/' !in w;
        assert forall w :: w in comps ==> w != "" && '/' !in w;
        assert comps[0] in comps && |Join(comps, '/')| >= |comps[0]| > 0;
        assert NormPath(u) == r;
        WordsOfJoined(comps, k);
      } else {
        assert r == LeadingSlashes(k) && r != "";
        WordsOfSlashes(k);
      }
    }
  }

  lemma {:induction false} NonEmptyOfNonEmpty(words: seq<string>)
    requires forall w :: w in words ==> w != ""
    ensures NonEmpty(words) == words
  {
    if words != [] {
      Seqs.ConsSplit(words);
      NonEmptyOfNonEmpty(words[1..]);
    }
  }

  lemma {:induction false} NonEmptyOfEmpties(words: seq<string>)
    requires forall w :: w in words ==> w == ""
    ensures NonEmpty(words) == []
  {
    if words != [] {
      Seqs.ConsSplit(words);
      NonEmptyOfEmpties(words[1..]);
    }
  }

  lemma KeptOfDot()
    ensures Kept(["."]) == []
  {
    assert ["."][..0] == [];
  }

  /** The names depend only on normpath's collapsed components of the decoded
      path. */
  lemma NamesFromComponents(path: string)
    ensures Names(path) == Kept(NormComponents(Unquote(Before(Before(path, '?'), '#'))))
  {
    NormPathWords(Unquote(Before(Before(path, '?'), '#')));
    KeptOfDot();
  }

  /** `/` translates to the root itself. */
  lemma SlashIsRoot(root: string)
    ensures Translated(root, "/") == root
  {
    BeforeAfterPrefix("/", "", '?');
    BeforeAfterPrefix("/", "", '#');
    assert "/" + "" == "/";
    UnquoteLiteral("/", "");
    NamesFromComponents("/");
    assert Split("/", '/') == [""] + Split("", '/');
  }

  /** Translated paths without `?` or `#` depend only on the components of
      their decoded path. */
  lemma NamesOfPlainPath(path: string)
    requires '?' !in path && '#' !in path
    ensures Names(path) == Kept(NormComponents(Unquote(path)))
  {
    BeforeAfterPrefix(path, "", '?');
    BeforeAfterPrefix(path, "", '#');
    assert path + "" == path;
    NamesFromComponents(path);
  }

  lemma ComponentsOfDoubledSlash(ua: string, ub: string)
    ensures NormComponents(ua + "/" + ("/" + ub)) == NormComponents(ua + "/" + ub)
  {
    var u1, u2 := ua + "/" + ("/" + ub), ua + "/" + ub;
    SplitAtSeparator(ua, "/" + ub, '/');
    assert "/" + ub == [] + ['/'] + ub;
    SplitAtSeparator([], ub, '/');
    SplitAtSeparator(ua, ub, '/');
    assert InitialSlashes(u1) > 0 <==> InitialSlashes(u2) > 0 by {
      if ua == [] { assert u1[0] == '/' && u2[0] == '/'; }
      else { assert u1[0] == ua[0] && u2[0] == ua[0]; }
    }
    var abs := InitialSlashes(u1) > 0;
    CollapseAppend([], Split(ua, '/'), [""] + Split(ub, '/'), abs);
    CollapseAppend(Collapse([], Split(ua, '/'), abs), [""], Split(ub, '/'), abs);
    CollapseAppend([], Split(ua, '/'), Split(ub, '/'), abs);
  }

  lemma ComponentsOfTrailingSlash(u: string)
    ensures NormComponents(u + "/") == NormComponents(u)
  {
    SplitAtSeparator(u, "", '/');
    assert u + "/" == u + ['/'] + "";
    if u == "" {
      assert Split("/", '/') == [""] + Split("", '/');
      assert Collapse([], [""], false) == Collapse([], [], false) == [];
      assert Collapse([], ["", ""], true) == Collapse([], [""], true) == [];
    } else {
      assert (u + "/")[0] == u[0];
      CollapseAppend([], Split(u, '/'), [""], InitialSlashes(u) > 0);
    }
  }

  /** A trailing slash adds nothing. */
  lemma TrailingSlashIgnored(root: string, path: string)
    requires '?' !in path && '#' !in path
    ensures Translated(root, path + "/") == Translated(root, path)
  {
    assert '?' !in path + "/" && '#' !in path + "/";
    NamesOfPlainPath(path + "/");
    NamesOfPlainPath(path);
    UnquoteAtSlash(path, "");
    assert path + "/" + "" == path + "/";
    assert Unquote("") == "";
    assert Unquote(path + "/") == Unquote(path) + "/";
    ComponentsOfTrailingSlash(Unquote(path));
    assert Names(path + "/") == Names(path);
  }

  lemma UnquoteDoubledSlash(a: string, b: string)
    ensures Unquote(a + "//" + b) == Unquote(a) + "/" + ("/" + Unquote(b))
  {
    assert "//" == "/" + "/";
    Seqs.Assoc(a, "//", b);
    Seqs.Assoc("/", "/", b);
    Seqs.Assoc(a, "/", "/" + b);
    UnquoteAtSlash(a, "/" + b);
    UnquoteSlashFirst(b);
  }

  /** A doubled slash counts as one. */
  lemma DoubledSlashIgnored(root: string, a: string, b: string)
    requires '?' !in a && '#' !in a && '?' !in b && '#' !in b
    ensures Translated(root, a + "//" + b) == Translated(root, a + "/" + b)
  {
    var p1, p2 := a + "//" + b, a + "/" + b;
    assert '?' !in p1 && '#' !in p1 && '?' !in p2 && '#' !in p2;
    NamesOfPlainPath(p1);
    NamesOfPlainPath(p2);
    UnquoteDoubledSlash(a, b);
    UnquoteAtSlash(a, b);
    ComponentsOfDoubledSlash(Unquote(a), Unquote(b));
  }

  lemma DecodeQuestionMark(b: string)
    ensures Unquote("%3F" + b) == "?" + Unquote(b)
  {
    var s := "%3F" + b;
    assert s[0] == '%' && s[1] == '3' && s[2] == 'F' && |s| >= 3;
    assert EscapeAt(s) && Decoded(s) == '?';
    assert s[3..] == b;
  }

  lemma DecodedQuestionMark(a: string, b: string)
    requires '%' !in a && '%' !in b
    ensures Unquote("/" + a + "%3F" + b) == "/" + a + "?" + b
  {
    var p := "/" + a;
    Seqs.Assoc(p, "%3F", b);
    Seqs.Assoc(p, "?", b);
    assert '%' !in p;
    UnquoteLiteral(p, "%3F" + b);
    DecodeQuestionMark(b);
    UnquoteLiteral(b, "");
    Seqs.AppendEmpty(b);
  }

  lemma ComponentsOfOneName(name: string)
    requires IsName(name)
    ensures NormComponents("/" + name) == [name]
  {
    SplitWithoutSeparator(name, '/');
    assert "/" + name == [] + ['/'] + name;
    SplitAtSeparator([], name, '/');
    assert Split("/" + name, '/') == ["", name];
    assert InitialSlashes("/" + name) > 0;
    assert NormStep([], "", true) == [];
    assert NormStep([], name, true) == [name];
    assert ["", name][1..] == [name] && [name][1..] == [];
    assert Collapse([], ["", name], true) == Collapse([], [name], true) == Collapse([name], [], true);
  }

  lemma EscapedPathFacts(a: string, b: string)
    requires IsName(a) && IsName(b)
    requires '%' !in a && '?' !in a && '#' !in a
    requires '%' !in b && '?' !in b && '#' !in b
    ensures var path := "/" + a + "%3F" + b;
            '?' !in path && '#' !in path && Unquote(path) == "/" + (a + "?" + b) && IsName(a + "?" + b)
  {
    var name := a + "?" + b;
    DecodedQuestionMark(a, b);
    assert "/" + a + "?" + b == "/" + name;
    assert name[|a|] == '?';
  }

  lemma KeptOfName(name: string)
    requires IsName(name)
    ensures Kept([name]) == [name]
  {
    assert [name][..0] == [];
  }

  /** `%3F` is decoded only after the query has been cut off, so it survives
      as a literal `?` inside a name. */
  lemma EncodedQuestionMarkKept(a: string, b: string)
    requires IsName(a) && IsName(b)
    requires '%' !in a && '?' !in a && '#' !in a
    requires '%' !in b && '?' !in b && '#' !in b
    ensures Names("/" + a + "%3F" + b) == [a + "?" + b]
  {
    var path := "/" + a + "%3F" + b;
    EscapedPathFacts(a, b);
    NamesOfPlainPath(path);
    ComponentsOfOneName(a + "?" + b);
    KeptOfName(a + "?" + b);
  }

  lemma {:induction false} JoinAvoids(names: seq<string>, sep: char, ch: char)
    requires ch != sep
    requires forall w :: w in names ==> ch !in w
    ensures ch !in Join(names, sep)
  {
    if |names| > 1 {
      Seqs.ConsSplit(names);
      JoinAvoids(names[1..], sep, ch);
    } else if |names| == 1 {
      assert names[0] in names;
    }
  }

  lemma {:induction false} CollapseNames(acc: seq<string>, names: seq<string>, absolute: bool)
    requires forall w :: w in names ==> IsName(w)
    ensures Collapse(acc, names, absolute) == acc + names
    decreases |names|
  {
    if names == [] {
      assert acc + names == acc;
    } else {
      Seqs.ConsSplit(names);
      assert NormStep(acc, names[0], absolute) == acc + [names[0]];
      CollapseNames(acc + [names[0]], names[1..], absolute);
      Seqs.Assoc(acc, [names[0]], names[1..]);
    }
  }

  lemma {:induction false} KeptNames(names: seq<string>)
    requires forall w :: w in names ==> IsName(w)
    ensures Kept(names) == names
  {
    if names != [] {
      Seqs.SnocSplit(names);
      KeptNames(names[..|names| - 1]);
    }
  }

  lemma ComponentsOfPlainPath(names: seq<string>)
    requires |names| > 0
    requires forall w :: w in names ==> IsName(w)
    ensures NormComponents("/" + Join(names, '/')) == names
  {
    var j := Join(names, '/');
    var path := "/" + j;
    assert path == [] + ['/'] + j;
    SplitAtSeparator([], j, '/');
    SplitJoin(names, '/');
    assert Split(path, '/') == [""] + names;
    assert InitialSlashes(path) > 0;
    assert NormStep([], "", true) == [];
    assert ([""] + names)[1..] == names;
    CollapseNames([], names, true);
    assert [] + names == names;
  }

  /** A request path made of plain names (no `.`, `..`, escapes, query or
      fragment) is served from exactly those names under the root. */
  lemma PlainPathTranslated(root: string, names: seq<string>)
    requires |names| > 0
    requires forall w :: w in names ==> IsName(w) && '%' !in w && '?' !in w && '#' !in w
    ensures Translated(root, "/" + Join(names, '/')) == root + Separator(root) + Join(names, '/')
  {
    var j := Join(names, '/');
    var path := "/" + j;
    JoinAvoids(names, '/', '%');
    JoinAvoids(names, '/', '?');
    JoinAvoids(names, '/', '#');
    assert '%' !in path && '?' !in path && '#' !in path;
    NamesOfPlainPath(path);
    UnquoteLiteral(path, "");
    assert path + "" == path;
    ComponentsOfPlainPath(names);
    KeptNames(names);
    JoinAllNames(root, names);
  }
}
