/** The parts of java.lang.String that the parsers use: `split` with a one-character
    separator (limit -1 and limit 0) and `replaceAll` with a character class. */
module Strings {

  /** Number of occurrences of `c` in `s`. */
  function Count(s: string, c: char): nat
  {
    if s == [] then 0 else (if s[0] == c then 1 else 0) + Count(s[1..], c)
  }

  /** `s.split(c, -1)`: every piece between separators, empty ones included. */
  function Split(s: string, c: char): (r: seq<string>)
    ensures |r| == Count(s, c) + 1
    ensures forall i :: 0 <= i < |r| ==> c !in r[i]
  {
    if s == [] then [""]
    else
      var rest := Split(s[1..], c);
      if s[0] == c then [""] + rest
      else [[s[0]] + rest[0]] + rest[1..]
  }

  /** The pieces glued back together with `c` between them. */
  function Join(ps: seq<string>, c: char): string
  {
    if ps == [] then ""
    else if |ps| == 1 then ps[0]
    else ps[0] + [c] + Join(ps[1..], c)
  }

  /** Splitting loses nothing: joining the pieces gives back the string. */
  lemma {:induction false} JoinSplit(s: string, c: char)
    ensures Join(Split(s, c), c) == s
  {
    if s != [] {
      JoinSplit(s[1..], c);
      var rest := Split(s[1..], c);
      if s[0] != c && |rest| > 1 {
        assert Join(rest, c) == rest[0] + [c] + Join(rest[1..], c);
        assert rest[1..][1..] == rest[2..];
      }
    }
  }

  lemma {:induction false} SplitPrefix(p: string, t: string, c: char)
    requires c !in p
    ensures Split(p + t, c) == [p + Split(t, c)[0]] + Split(t, c)[1..]
  {
    var st := Split(t, c);
    if p != [] {
      assert (p + t)[1..] == p[1..] + t;
      SplitPrefix(p[1..], t, c);
      assert [p[0]] + (p[1..] + st[0]) == p + st[0];
    } else {
      assert p + t == t;
      assert p + st[0] == st[0];
      assert st == [st[0]] + st[1..];
    }
  }

  /** The other direction of the round trip: pieces free of `c` survive join then split. */
  lemma {:induction false} SplitJoin(ps: seq<string>, c: char)
    requires |ps| >= 1
    requires forall i :: 0 <= i < |ps| ==> c !in ps[i]
    ensures Split(Join(ps, c), c) == ps
  {
    if |ps| == 1 {
      SplitPrefix(ps[0], "", c);
      assert ps[0] + "" == ps[0];
    } else {
      SplitJoin(ps[1..], c);
      var t := [c] + Join(ps[1..], c);
      assert Join(ps, c) == ps[0] + t;
      SplitPrefix(ps[0], t, c);
      assert t[1..] == Join(ps[1..], c);
      assert ps[0] + "" == ps[0];
      assert ps == [ps[0]] + ps[1..];
    }
  }

  /** A string without the separator is a single piece. */
  lemma SplitWithout(s: string, c: char)
    requires c !in s
    ensures Split(s, c) == [s]
  {
    SplitPrefix(s, "", c);
    assert s + "" == s;
  }

  lemma {:induction false} CountIn(s: string, c: char)
    ensures c in s <==> Count(s, c) > 0
  {
    if s != [] {
      CountIn(s[1..], c);
      assert s == [s[0]] + s[1..];
    }
  }

  /** Every character of a piece is a character of the joined string. */
  lemma {:induction false} JoinContains(ps: seq<string>, c: char, i: nat, ch: char)
    requires i < |ps| && ch in ps[i]
    ensures ch in Join(ps, c)
  {
    if |ps| > 1 {
      if i > 0 {
        JoinContains(ps[1..], c, i - 1, ch);
      }
    }
  }

  /** A piece of `s.split(c, -1)` holds only characters of `s`. */
  lemma SplitPieceChars(s: string, c: char, i: nat, ch: char)
    requires i < |Split(s, c)| && ch in Split(s, c)[i]
    ensures ch in s
  {
    JoinContains(Split(s, c), c, i, ch);
    JoinSplit(s, c);
  }

  /** Drops the empty strings at the end of `ps`, as `split` with limit 0 does. */
  function DropTrailingEmpty(ps: seq<string>): (r: seq<string>)
    ensures r <= ps
    ensures r == [] || r[|r| - 1] != ""
    ensures forall i :: |r| <= i < |ps| ==> ps[i] == ""
  {
    if ps == [] then []
    else if ps[|ps| - 1] == "" then DropTrailingEmpty(ps[..|ps| - 1])
    else ps
  }

  /** `s.split(c)` (limit 0): a string without `c` comes back whole (even ""),
      otherwise every piece with the trailing empty ones dropped. */
  function SplitJava(s: string, c: char): (r: seq<string>)
  {
    if c !in s then [s] else DropTrailingEmpty(Split(s, c))
  }

  lemma {:induction false} SplitAllEmpty(s: string, c: char)
    ensures (forall i :: 0 <= i < |Split(s, c)| ==> Split(s, c)[i] == "")
        <==> (forall j :: 0 <= j < |s| ==> s[j] == c)
  {
    if s != [] {
      SplitAllEmpty(s[1..], c);
      var ps, rest := Split(s, c), Split(s[1..], c);
      if s[0] == c {
        assert ps == [""] + rest;
        if forall i :: 0 <= i < |rest| ==> rest[i] == "" {
          forall i | 0 <= i < |ps| ensures ps[i] == "" {
            if i > 0 { assert ps[i] == rest[i - 1]; }
          }
        }
        if forall i :: 0 <= i < |ps| ==> ps[i] == "" {
          forall i | 0 <= i < |rest| ensures rest[i] == "" {
            assert rest[i] == ps[i + 1];
          }
        }
        assert (forall j :: 0 <= j < |s| ==> s[j] == c)
            <==> (forall j :: 0 <= j < |s[1..]| ==> s[1..][j] == c) by {
          forall j | 0 < j < |s| ensures s[j] == s[1..][j - 1] { }
        }
      } else {
        assert ps[0] != "";
      }
    }
  }

  /** `s.split(c)` is empty exactly when `s` is made of one or more `c` and nothing else. */
  lemma SplitJavaEmpty(s: string, c: char)
    ensures SplitJava(s, c) == [] <==> (s != [] && forall j :: 0 <= j < |s| ==> s[j] == c)
  {
    SplitAllEmpty(s, c);
    if s != [] {
      assert s[0] in s;
    }
    if c in s {
      var ps := Split(s, c);
      var r := DropTrailingEmpty(ps);
      if r != [] {
        assert ps[|r| - 1] == r[|r| - 1] != "";
      }
    }
  }

  /** `s.replaceAll("[...]", "")`: `s` without the characters of `cs`, order kept. */
  function RemoveChars(s: string, cs: set<char>): (r: string)
    ensures forall i :: 0 <= i < |r| ==> r[i] !in cs
    ensures |r| <= |s|
    ensures (forall i :: 0 <= i < |s| ==> s[i] !in cs) ==> r == s
  {
    if s == [] then []
    else (if s[0] in cs then [] else [s[0]]) + RemoveChars(s[1..], cs)
  }

  /** One character is kept exactly when it is not among `cs`. */
  lemma RemoveCharsOne(x: char, cs: set<char>)
    ensures RemoveChars([x], cs) == if x in cs then [] else [x]
  {
    assert [x][1..] == [];
  }

  /** Removing from a concatenation removes from each part, and keeps their order; with
      `RemoveCharsOne` this fixes the result: every character outside `cs` is kept, in order. */
  lemma {:induction false} RemoveCharsAppend(a: string, b: string, cs: set<char>)
    ensures RemoveChars(a + b, cs) == RemoveChars(a, cs) + RemoveChars(b, cs)
  {
    if a == [] {
      assert a + b == b;
    } else {
      assert (a + b)[0] == a[0];
      assert (a + b)[1..] == a[1..] + b;
      RemoveCharsAppend(a[1..], b, cs);
      var head := if a[0] in cs then [] else [a[0]];
      assert RemoveChars(a + b, cs) == head + (RemoveChars(a[1..], cs) + RemoveChars(b, cs));
      assert head + (RemoveChars(a[1..], cs) + RemoveChars(b, cs)) == (head + RemoveChars(a[1..], cs)) + RemoveChars(b, cs);
    }
  }
}
