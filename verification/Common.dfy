/** Types and sequence vocabulary shared by the kernels. */
module Common {
  datatype Option<+T> = None | Some(value: T)

  datatype Result<+T, +E> = Ok(value: T) | Err(error: E)

  /** The members of `s` that satisfy `p`, in order. */
  function Filter<T>(p: T -> bool, s: seq<T>): seq<T> {
    if s == [] then [] else (if p(s[0]) then [s[0]] else []) + Filter(p, s[1..])
  }

  lemma {:induction false} FilterConcat<T>(p: T -> bool, a: seq<T>, b: seq<T>)
    ensures Filter(p, a + b) == Filter(p, a) + Filter(p, b)
  {
    if a == [] {
      assert a + b == b;
    } else {
      var head := if p(a[0]) then [a[0]] else [];
      assert Filter(p, a + b) == head + Filter(p, a[1..] + b) by {
        assert (a + b)[0] == a[0] && (a + b)[1..] == a[1..] + b;
      }
      FilterConcat(p, a[1..], b);
      AppendAssociates(head, Filter(p, a[1..]), Filter(p, b));
    }
  }

  lemma AppendAssociates<T>(a: seq<T>, b: seq<T>, c: seq<T>)
    ensures a + (b + c) == (a + b) + c
  {
  }

  lemma {:induction false} FilterMembers<T>(p: T -> bool, s: seq<T>)
    ensures forall x :: x in Filter(p, s) <==> x in s && p(x)
  {
    if s != [] {
      FilterMembers(p, s[1..]);
      assert s == [s[0]] + s[1..];
    }
  }

  lemma {:induction false} SameFilter<T>(p: T -> bool, q: T -> bool, s: seq<T>)
    requires forall x :: p(x) == q(x)
    ensures Filter(p, s) == Filter(q, s)
  {
    if s != [] { SameFilter(p, q, s[1..]); }
  }

  lemma {:induction false} FilterNone<T>(p: T -> bool, s: seq<T>)
    requires forall i :: 0 <= i < |s| ==> !p(s[i])
    ensures Filter(p, s) == []
  {
    if s != [] { FilterNone(p, s[1..]); }
  }

  lemma {:induction false} FilterAll<T>(p: T -> bool, s: seq<T>)
    requires forall i :: 0 <= i < |s| ==> p(s[i])
    ensures Filter(p, s) == s
  {
    if s != [] { FilterAll(p, s[1..]); }
  }

  lemma FilterLast<T>(p: T -> bool, s: seq<T>)
    requires s != []
    ensures Filter(p, s) == Filter(p, s[..|s| - 1]) + if p(s[|s| - 1]) then [s[|s| - 1]] else []
  {
    var n := |s| - 1;
    assert s == s[..n] + [s[n]];
    FilterConcat(p, s[..n], [s[n]]);
    FilterOne(p, s[n]);
  }

  lemma FilterOne<T>(p: T -> bool, x: T)
    ensures Filter(p, [x]) == if p(x) then [x] else []
  {
  }

  /** The places of the members that satisfy `p`. */
  ghost function Places<T>(p: T -> bool, s: seq<T>): set<int> { set i | 0 <= i < |s| && p(s[i]) }

  lemma {:induction false} FilterCount<T>(p: T -> bool, s: seq<T>)
    ensures |Filter(p, s)| == |Places(p, s)|
  {
    if s == [] {
      assert Places(p, s) == {};
    } else {
      FilterCount(p, s[..|s| - 1]);
      FilterLast(p, s);
      PlacesLast(p, s);
    }
  }

  lemma PlacesLast<T>(p: T -> bool, s: seq<T>)
    requires s != []
    ensures |Places(p, s)| == |Places(p, s[..|s| - 1])| + if p(s[|s| - 1]) then 1 else 0
  {
    var n := |s| - 1;
    var before := Places(p, s[..n]);
    assert n !in before;
    assert Places(p, s) == before + if p(s[n]) then {n} else {};
  }

  function Both<T>(p: T -> bool, q: T -> bool): T -> bool { (x: T) => p(x) && q(x) }

  lemma {:induction false} FilterBoth<T>(p: T -> bool, q: T -> bool, s: seq<T>)
    ensures Filter(p, Filter(q, s)) == Filter(Both(p, q), s)
  {
    if s != [] {
      FilterBoth(p, q, s[1..]);
      var head := if q(s[0]) then [s[0]] else [];
      FilterConcat(p, head, Filter(q, s[1..]));
      FilterOne(p, s[0]);
    }
  }

  lemma FilterBothCount<T>(p: T -> bool, q: T -> bool, s: seq<T>)
    ensures |Filter(p, Filter(q, s))| == |Places(Both(p, q), s)|
  {
    FilterBoth(p, q, s);
    FilterCount(Both(p, q), s);
  }

  /** The results of `f` on the members of `s`, in order. */
  function Map<T, U>(f: T -> U, s: seq<T>): (r: seq<U>)
    ensures |r| == |s|
    ensures forall i :: 0 <= i < |s| ==> r[i] == f(s[i])
  {
    if s == [] then [] else [f(s[0])] + Map(f, s[1..])
  }

  lemma MapConcat<T, U>(f: T -> U, a: seq<T>, b: seq<T>)
    ensures Map(f, a + b) == Map(f, a) + Map(f, b)
  {
  }

  function Sum(s: seq<int>): int {
    if s == [] then 0 else s[0] + Sum(s[1..])
  }

  lemma {:induction false} SumConcat(a: seq<int>, b: seq<int>)
    ensures Sum(a + b) == Sum(a) + Sum(b)
  {
    if a == [] {
      assert a + b == b;
    } else {
      assert (a + b)[0] == a[0] && (a + b)[1..] == a[1..] + b;
      SumConcat(a[1..], b);
    }
  }

  /** All the members of all the sequences of `ss`, in order. */
  function Flatten<T>(ss: seq<seq<T>>): seq<T> {
    if ss == [] then [] else ss[0] + Flatten(ss[1..])
  }

  lemma {:induction false} FlattenConcat<T>(a: seq<seq<T>>, b: seq<seq<T>>)
    ensures Flatten(a + b) == Flatten(a) + Flatten(b)
  {
    if a == [] {
      assert a + b == b;
    } else {
      assert (a + b)[0] == a[0] && (a + b)[1..] == a[1..] + b;
      FlattenConcat(a[1..], b);
    }
  }

  /** `Array.prototype.join`. */
  function Join(parts: seq<string>, separator: string): string {
    if parts == [] then ""
    else if |parts| == 1 then parts[0]
    else parts[0] + separator + Join(parts[1..], separator)
  }

  /** `split('\n')`. */
  function SplitLines(s: string): seq<string> {
    if s == "" then [""]
    else
      var rest := SplitLines(s[1..]);
      if s[0] == '\n' then [""] + rest else [[s[0]] + rest[0]] + rest[1..]
  }

  /** Nothing but the line breaks is lost, and no line holds one. */
  lemma {:induction false} SplitLinesMeans(s: string)
    ensures SplitLines(s) != [] && Join(SplitLines(s), "\n") == s
    ensures forall i :: 0 <= i < |SplitLines(s)| ==> '\n' !in SplitLines(s)[i]
  {
    if s != "" {
      SplitLinesMeans(s[1..]);
      var rest := SplitLines(s[1..]);
      if s[0] == '\n' {
        JoinFirst("", rest, "\n");
        assert s == "" + "\n" + s[1..];
      } else {
        JoinPrepend([s[0]], rest, "\n");
        assert s == [s[0]] + s[1..];
      }
    }
  }

  lemma JoinFirst(first: string, rest: seq<string>, separator: string)
    requires rest != []
    ensures Join([first] + rest, separator) == first + separator + Join(rest, separator)
  {
    assert ([first] + rest)[1..] == rest;
  }

  lemma JoinPrepend(head: string, parts: seq<string>, separator: string)
    requires parts != []
    ensures Join([head + parts[0]] + parts[1..], separator) == head + Join(parts, separator)
  {
    if |parts| == 1 {
      assert [head + parts[0]] + parts[1..] == [head + parts[0]];
    } else {
      JoinFirst(head + parts[0], parts[1..], separator);
      JoinFirst(parts[0], parts[1..], separator);
      assert [parts[0]] + parts[1..] == parts;
      assert (head + parts[0]) + separator + Join(parts[1..], separator)
          == head + (parts[0] + separator + Join(parts[1..], separator));
    }
  }

  /** Lines without a break in them are what splitting their join gives. */
  lemma {:induction false} JoinedSplits(parts: seq<string>)
    requires parts != [] && forall i :: 0 <= i < |parts| ==> '\n' !in parts[i]
    ensures SplitLines(Join(parts, "\n")) == parts
  {
    if |parts| == 1 {
      UnbrokenLine(parts[0]);
      assert parts == [parts[0]];
    } else {
      JoinedSplits(parts[1..]);
      FirstLine(parts[0], Join(parts[1..], "\n"));
      assert parts == [parts[0]] + parts[1..];
    }
  }

  lemma {:induction false} UnbrokenLine(line: string)
    requires '\n' !in line
    ensures SplitLines(line) == [line]
  {
    if line != "" {
      UnbrokenLine(line[1..]);
      assert [line[0]] + line[1..] == line;
    }
  }

  lemma {:induction false} FirstLine(line: string, more: string)
    requires '\n' !in line
    ensures SplitLines(line + "\n" + more) == [line] + SplitLines(more)
  {
    var s := line + "\n" + more;
    if line == "" {
      assert s[0] == '\n' && s[1..] == more;
    } else {
      FirstLine(line[1..], more);
      assert s[0] == line[0] && s[1..] == line[1..] + "\n" + more;
      assert [line[0]] + line[1..] == line;
    }
  }
}
