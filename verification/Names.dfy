/** Directory listings in name order, and paths as texts of their names. */
module Names {
  predicate AtMost(a: string, b: string) {
    if |a| == 0 then true
    else if |b| == 0 then false
    else a[0] < b[0] || (a[0] == b[0] && AtMost(a[1..], b[1..]))
  }

  /** At the first difference the smaller character comes first, and a name before its continuations. */
  lemma {:induction false} AtMostIff(a: string, b: string)
    ensures AtMost(a, b) <==>
      a <= b || exists k :: 0 <= k < |a| && k < |b| && a[..k] == b[..k] && a[k] < b[k]
  {
    if |a| > 0 && |b| > 0 {
      var (x, y) := (a[1..], b[1..]);
      AtMostIff(x, y);
      if a[0] == b[0] {
        assert a <= b <==> x <= y;
        forall k | 0 <= k < |x| && k < |y| && x[..k] == y[..k] && x[k] < y[k]
          ensures a[..k + 1] == b[..k + 1] && a[k + 1] < b[k + 1]
        {
          assert a[..k + 1] == [a[0]] + x[..k] && b[..k + 1] == [b[0]] + y[..k];
        }
        forall k | 0 < k < |a| && k < |b| && a[..k] == b[..k] && a[k] < b[k]
          ensures x[..k - 1] == y[..k - 1] && x[k - 1] < y[k - 1]
        {
          assert x[..k - 1] == a[..k][1..] && y[..k - 1] == b[..k][1..];
        }
      } else {
        assert a[..0] == b[..0];
      }
    }
  }

  lemma {:induction false} AtMostIsTotal(a: string, b: string)
    ensures AtMost(a, b) || AtMost(b, a)
  {
    if |a| > 0 && |b| > 0 && a[0] == b[0] { AtMostIsTotal(a[1..], b[1..]); }
  }

  lemma {:induction false} AtMostIsTransitive(a: string, b: string, c: string)
    requires AtMost(a, b) && AtMost(b, c)
    ensures AtMost(a, c)
  {
    if |a| > 0 && a[0] == b[0] == c[0] { AtMostIsTransitive(a[1..], b[1..], c[1..]); }
  }

  predicate InOrder<T>(s: seq<(string, T)>) {
    forall i, j :: 0 <= i < j < |s| ==> AtMost(s[i].0, s[j].0)
  }

  function Insert<T(!new)>(x: (string, T), s: seq<(string, T)>): (r: seq<(string, T)>)
    ensures |r| == |s| + 1
    ensures forall y :: y in r <==> y == x || y in s
  {
    if |s| == 0 then [x]
    else if AtMost(x.0, s[0].0) then [x] + s
    else [s[0]] + Insert(x, s[1..])
  }

  /** `sorted(listing, key=name)`: the same entries, in name order. */
  function SortByName<T(!new)>(s: seq<(string, T)>): (r: seq<(string, T)>)
    ensures |r| == |s|
    ensures forall y :: y in r <==> y in s
  {
    if |s| == 0 then [] else Insert(s[0], SortByName(s[1..]))
  }

  lemma {:induction false} InsertKeepsOrder<T(!new)>(x: (string, T), s: seq<(string, T)>)
    requires InOrder(s)
    ensures InOrder(Insert(x, s))
  {
    if |s| > 0 {
      var r := Insert(x, s);
      if AtMost(x.0, s[0].0) {
        forall j | 0 <= j < |s| ensures AtMost(x.0, s[j].0) { if j > 0 { AtMostIsTransitive(x.0, s[0].0, s[j].0); } }
      } else {
        AtMostIsTotal(x.0, s[0].0);
        InsertKeepsOrder(x, s[1..]);
        forall j | 0 < j < |r| ensures AtMost(s[0].0, r[j].0) {
          assert r[j] in Insert(x, s[1..]);
          if r[j] != x {
            var k :| 0 <= k < |s[1..]| && s[1..][k] == r[j];
            assert s[k + 1] == r[j];
          }
        }
      }
    }
  }

  lemma {:induction false} SortedInOrder<T(!new)>(s: seq<(string, T)>)
    ensures InOrder(SortByName(s))
  {
    if |s| > 0 {
      SortedInOrder(s[1..]);
      InsertKeepsOrder(s[0], SortByName(s[1..]));
    }
  }

  predicate Distinct<T>(s: seq<(string, T)>) {
    forall i, j :: 0 <= i < j < |s| ==> s[i].0 != s[j].0
  }

  lemma {:induction false} InsertKeepsDistinct<T(!new)>(x: (string, T), s: seq<(string, T)>)
    requires Distinct(s) && forall i :: 0 <= i < |s| ==> s[i].0 != x.0
    ensures Distinct(Insert(x, s))
    ensures forall i :: 0 <= i < |Insert(x, s)| ==>
      Insert(x, s)[i].0 == x.0 || exists j :: 0 <= j < |s| && s[j].0 == Insert(x, s)[i].0
  {
    if |s| > 0 && !AtMost(x.0, s[0].0) {
      var (r, rest) := (Insert(x, s), s[1..]);
      InsertKeepsDistinct(x, rest);
      forall j | 0 < j < |r| ensures r[j].0 != s[0].0 {
        assert r[j] == Insert(x, rest)[j - 1];
        if r[j].0 != x.0 {
          var k :| 0 <= k < |rest| && rest[k].0 == r[j].0;
          assert s[k + 1].0 == r[j].0;
        }
      }
    }
  }

  lemma {:induction false} SortedDistinct<T(!new)>(s: seq<(string, T)>)
    requires Distinct(s)
    ensures Distinct(SortByName(s))
  {
    if |s| > 0 {
      var rest := SortByName(s[1..]);
      SortedDistinct(s[1..]);
      forall i | 0 <= i < |rest| ensures rest[i].0 != s[0].0 {
        assert rest[i] in s[1..];
        var k :| 0 <= k < |s[1..]| && s[1..][k] == rest[i];
        assert s[k + 1] == rest[i];
      }
      InsertKeepsDistinct(s[0], rest);
    }
  }

  // --- paths as texts ---

  function Slashed(path: seq<string>): string {
    if |path| == 0 then "" else if |path| == 1 then path[0] else path[0] + "/" + Slashed(path[1..])
  }

  /** A name that a directory may hold. */
  predicate ProperName(name: string) { |name| > 0 && '/' !in name }

  predicate Proper(path: seq<string>) { |path| > 0 && forall i :: 0 <= i < |path| ==> ProperName(path[i]) }

  /** The names that a text stands for. */
  function NamesIn(text: string): seq<string>
    decreases |text|
  {
    var n := NameLength(text);
    if n == |text| then [text] else [text[..n]] + NamesIn(text[n + 1..])
  }

  function NameLength(text: string): (n: nat)
    ensures n <= |text|
  {
    if |text| == 0 || text[0] == '/' then 0 else 1 + NameLength(text[1..])
  }

  lemma {:induction false} NameEnds(name: string, rest: string)
    requires '/' !in name && (|rest| > 0 ==> rest[0] == '/')
    ensures NameLength(name + rest) == |name|
  {
    if |name| == 0 {
      assert name + rest == rest;
    } else {
      assert (name + rest)[1..] == name[1..] + rest;
      NameEnds(name[1..], rest);
    }
  }

  lemma {:induction false} PathsReadBack(path: seq<string>)
    requires Proper(path)
    ensures NamesIn(Slashed(path)) == path
  {
    if |path| == 1 {
      NameEnds(path[0], "");
      assert path[0] + "" == path[0] && [path[0]] == path;
    } else {
      var rest := "/" + Slashed(path[1..]);
      NameEnds(path[0], rest);
      var text := path[0] + rest;
      assert Slashed(path) == text && text[..|path[0]|] == path[0] && text[|path[0]| + 1..] == Slashed(path[1..]);
      PathsReadBack(path[1..]);
      assert [path[0]] + path[1..] == path;
    }
  }
}
