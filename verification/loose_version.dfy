/**
  distutils `LooseVersion`, restricted to release strings made only of
  digits and dots: every maximal digit run becomes an integer, the dots are
  dropped, and two versions compare as Python compares the resulting lists.
*/
module LooseVersion {
  import opened Decimal
  import Seqs

  /** The characters the release filter `^[0-9.]+$` accepts. */
  predicate IsReleaseChar(c: char) {
    IsDigit(c) || c == '.'
  }

  predicate ReleaseChars(s: string) {
    forall i :: 0 <= i < |s| ==> IsReleaseChar(s[i])
  }

  /** Length of the digit run at the front of s. */
  function RunLength(s: string): (n: nat)
    ensures n <= |s| && AllDigits(s[..n])
    ensures n < |s| ==> !IsDigit(s[n])
    ensures |s| > 0 && IsDigit(s[0]) ==> n > 0
  {
    if s == [] || !IsDigit(s[0]) then 0
    else
      var n := 1 + RunLength(s[1..]);
      assert s[..n] == [s[0]] + s[1..][..n - 1];
      n
  }

  /** The parsed version: the integer value of each digit run, in order. */
  function Components(s: string): (c: seq<nat>)
    requires ReleaseChars(s)
    ensures |c| <= |s|
    ensures s != [] && AllDigits(s) ==> c == [Value(s)]
    decreases |s|
  {
    if s == [] then []
    else if s[0] == '.' then Components(s[1..])
    else
      var n := RunLength(s);
      assert AllDigits(s) ==> n == |s| && s[..n] == s && s[n..] == [];
      [Value(s[..n])] + Components(s[n..])
  }

  /** Python's `<` on two lists of integers: lexicographic, and a proper
      prefix is smaller than the longer list. */
  predicate Less(a: seq<nat>, b: seq<nat>)
    ensures Less(a, b) ==> a != b
  {
    if a == [] then b != []
    else if b == [] then false
    else a[0] < b[0] || (a[0] == b[0] && Less(a[1..], b[1..]))
  }

  predicate LessOrEqual(a: seq<nat>, b: seq<nat>) {
    a == b || Less(a, b)
  }

  lemma {:induction false} LessTransitive(a: seq<nat>, b: seq<nat>, c: seq<nat>)
    requires Less(a, b) && Less(b, c)
    ensures Less(a, c)
  {
    if a != [] && a[0] == b[0] && b[0] == c[0] {
      LessTransitive(a[1..], b[1..], c[1..]);
    }
  }

  lemma {:induction false} LessTrichotomous(a: seq<nat>, b: seq<nat>)
    ensures Less(a, b) || a == b || Less(b, a)
  {
    if a != [] && b != [] && a[0] == b[0] {
      LessTrichotomous(a[1..], b[1..]);
      if a[1..] == b[1..] {
        assert a == [a[0]] + a[1..] && b == [b[0]] + b[1..];
      }
    }
  }

  /** Less is a strict total order on parsed versions. */
  lemma LessIsStrictTotalOrder()
    ensures forall a :: !Less(a, a)
    ensures forall a, b, c :: Less(a, b) && Less(b, c) ==> Less(a, c)
    ensures forall a, b :: Less(a, b) || a == b || Less(b, a)
  {
    forall a, b, c | Less(a, b) && Less(b, c) { LessTransitive(a, b, c); }
    forall a, b { LessTrichotomous(a, b); }
  }

  /** A version written out with dots between its integers; the empty
      version is written as a lone dot, which parses to no component. */
  function Render(v: seq<nat>): (s: string)
    ensures ReleaseChars(s)
    ensures |s| > 0
  {
    if v == [] then "."
    else if |v| == 1 then Show(v[0])
    else Show(v[0]) + "." + Render(v[1..])
  }

  lemma {:induction false} RunLengthOfDigits(d: string, t: string)
    requires AllDigits(d)
    requires t == [] || !IsDigit(t[0])
    ensures RunLength(d + t) == |d|
  {
    if d != [] {
      assert (d + t)[1..] == d[1..] + t;
      RunLengthOfDigits(d[1..], t);
    }
  }

  lemma ComponentsOfNumberThen(n: nat, t: string)
    requires ReleaseChars(t)
    requires t == [] || t[0] == '.'
    ensures ReleaseChars(Show(n) + t)
    ensures Components(Show(n) + t) == [n] + Components(t)
  {
    var d := Show(n);
    assert ReleaseChars(d + t);
    RunLengthOfDigits(d, t);
    assert (d + t)[..|d|] == d && (d + t)[|d|..] == t;
    ValueOfShow(n);
  }

  /** A lone dot parses to no component. */
  lemma ComponentsOfDot()
    ensures ReleaseChars(".") && Components(".") == []
  {
    assert "."[0] == '.' && "."[1..] == "";
  }

  /** Parsing a rendered version gives the version back. */
  lemma {:induction false} ComponentsOfRender(v: seq<nat>)
    ensures Components(Render(v)) == v
  {
    if v == [] {
      ComponentsOfDot();
    } else if |v| == 1 {
      ComponentsOfRenderOne(v);
    } else {
      ComponentsOfRender(v[1..]);
      ComponentsOfRenderStep(v);
    }
  }

  lemma ComponentsOfRenderOne(v: seq<nat>)
    requires |v| == 1
    ensures Components(Render(v)) == v
  {
    assert Render(v) == Show(v[0]);
    ComponentsOfNumberThen(v[0], "");
    assert Show(v[0]) + "" == Show(v[0]);
  }

  /** One more leading integer: its digits, a dot, then the rest. */
  lemma ComponentsOfRenderStep(v: seq<nat>)
    requires |v| > 1 && Components(Render(v[1..])) == v[1..]
    ensures Components(Render(v)) == v
  {
    var rest := Render(v[1..]);
    RenderStep(v);
    ComponentsAfterDot(rest);
    ComponentsOfNumberThen(v[0], "." + rest);
    assert [v[0]] + v[1..] == v;
  }

  lemma RenderStep(v: seq<nat>)
    requires |v| > 1
    ensures Render(v) == Show(v[0]) + ("." + Render(v[1..]))
  {
    assert Render(v) == Show(v[0]) + "." + Render(v[1..]);
    Seqs.Assoc(Show(v[0]), ".", Render(v[1..]));
  }

  /** A leading dot separates and adds no component. */
  lemma ComponentsAfterDot(t: string)
    requires ReleaseChars(t)
    ensures ReleaseChars("." + t) && Components("." + t) == Components(t)
  {
    assert ("." + t)[0] == '.' && ("." + t)[1..] == t;
  }

  /** `1.10` is newer than `1.9`: digit runs compare as integers, not text. */
  lemma TenBeatsNine()
    ensures ReleaseChars("1.9") && ReleaseChars("1.10")
    ensures Less(Components("1.9"), Components("1.10"))
  {
    assert Show(1) == "1" && Show(9) == "9";
    assert Show(10) == Show(1) + "0";
    assert Render([1, 9]) == "1.9";
    assert Render([1, 10]) == "1.10";
    ComponentsOfRender([1, 9]);
    ComponentsOfRender([1, 10]);
  }

  /** `1.0` is older than `1.0.0`: a proper prefix is smaller. */
  lemma ShorterIsOlder()
    ensures ReleaseChars("1.0") && ReleaseChars("1.0.0")
    ensures Less(Components("1.0"), Components("1.0.0"))
  {
    assert Show(1) == "1" && Show(0) == "0";
    assert Render([1, 0]) == "1.0";
    assert Render([1, 0, 0]) == "1.0.0";
    ComponentsOfRender([1, 0]);
    ComponentsOfRender([1, 0, 0]);
  }
}
