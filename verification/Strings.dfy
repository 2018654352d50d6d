/** Splitting and cutting strings at a one-character separator, as Go's strings package does. */
module Strings {
  import opened Sequences

  /** The stretches between the separators; one more than there are separators. */
  function Split(s: string, sep: char): (parts: seq<string>)
    ensures parts != []
  {
    if s == "" then [""]
    else
      var rest := Split(s[1..], sep);
      if s[0] == sep then [""] + rest else [[s[0]] + rest[0]] + rest[1..]
  }

  function Join(parts: seq<string>, sep: char): string {
    if parts == [] then ""
    else if |parts| == 1 then parts[0]
    else parts[0] + [sep] + Join(parts[1..], sep)
  }

  /** What is before and what is after the first separator; nothing is after it if there is none. */
  function Cut(s: string, sep: char): (string, string) {
    if s == "" then ("", "")
    else if s[0] == sep then ("", s[1..])
    else
      var (before, after) := Cut(s[1..], sep);
      ([s[0]] + before, after)
  }

  /** The names of collections, as they are written on include and exclude lists. */
  function Prefixed(collections: seq<string>): seq<string> {
    seq(|collections|, i requires 0 <= i < |collections| => "@" + collections[i])
  }

  lemma JoinOfCons(first: char, parts: seq<string>, sep: char)
    requires parts != []
    ensures Join([[first] + parts[0]] + parts[1..], sep) == [first] + Join(parts, sep)
  {
    var longer := [[first] + parts[0]] + parts[1..];
    assert longer[1..] == parts[1..];
    if |parts| > 1 {
      Assoc([first], parts[0] + [sep], Join(parts[1..], sep));
      Assoc([first], parts[0], [sep]);
    }
  }

  lemma {:induction false} SplitParts(s: string, sep: char)
    ensures Join(Split(s, sep), sep) == s
    ensures forall part | part in Split(s, sep) :: sep !in part
  {
    if s != "" {
      SplitParts(s[1..], sep);
      var rest := Split(s[1..], sep);
      if s[0] == sep {
        assert ([""] + rest)[1..] == rest;
        assert s == "" + [sep] + s[1..];
      } else {
        assert s == [s[0]] + s[1..];
        assert rest[0] in rest;
        JoinOfCons(s[0], rest, sep);
      }
    }
  }

  lemma {:induction false} SplitWhole(s: string, sep: char)
    requires sep !in s
    ensures Split(s, sep) == [s] && Cut(s, sep) == (s, "")
  {
    if s != "" {
      assert s[0] in s;
      assert forall c | c in s[1..] :: c in s;
      SplitWhole(s[1..], sep);
      assert [s[0]] + s[1..] == s;
    }
  }

  /** Splitting at a separator that is known gives the parts of both sides. */
  lemma {:induction false} SplitAt(a: string, b: string, sep: char)
    ensures Split(a + [sep] + b, sep) == Split(a, sep) + Split(b, sep)
  {
    var s := a + [sep] + b;
    if a == "" {
      assert s[0] == sep && s[1..] == b;
    } else {
      SplitAt(a[1..], b, sep);
      assert s[0] == a[0] && s[1..] == a[1..] + [sep] + b;
      var left, right := Split(a[1..], sep), Split(b, sep);
      if a[0] == sep {
        Assoc([""], left, right);
      } else {
        assert (left + right)[1..] == left[1..] + right;
        Assoc([[a[0]] + left[0]], left[1..], right);
      }
    }
  }

  lemma {:induction false} CutAt(a: string, b: string, sep: char)
    requires sep !in a
    ensures Cut(a + [sep] + b, sep) == (a, b)
  {
    var s := a + [sep] + b;
    if a == "" {
      assert s[0] == sep && s[1..] == b;
    } else {
      assert a[0] in a;
      assert forall c | c in a[1..] :: c in a;
      CutAt(a[1..], b, sep);
      assert s[0] == a[0] && s[1..] == a[1..] + [sep] + b;
      assert [a[0]] + a[1..] == a;
    }
  }

  /** The first part is what is before the first separator. */
  lemma {:induction false} CutIsFirstPart(s: string, sep: char)
    ensures Cut(s, sep).0 == Split(s, sep)[0]
  {
    if s != "" {
      CutIsFirstPart(s[1..], sep);
    }
  }

  /** Splitting undoes joining parts without separators. */
  lemma {:induction false} SplitJoin(parts: seq<string>, sep: char)
    requires parts != [] && forall i | 0 <= i < |parts| :: sep !in parts[i]
    ensures Split(Join(parts, sep), sep) == parts
  {
    SplitWhole(parts[0], sep);
    if |parts| > 1 {
      var rest := parts[1..];
      assert forall i | 0 <= i < |rest| :: rest[i] == parts[i + 1];
      SplitJoin(rest, sep);
      SplitAt(parts[0], Join(rest, sep), sep);
      assert parts == [parts[0]] + rest;
    }
  }

  lemma {:induction false} JoinHasNo(parts: seq<string>, sep: char, c: char)
    requires c != sep && forall i | 0 <= i < |parts| :: c !in parts[i]
    ensures c !in Join(parts, sep)
  {
    if |parts| > 1 {
      assert forall i | 0 <= i < |parts[1..]| :: parts[1..][i] == parts[i + 1];
      JoinHasNo(parts[1..], sep, c);
    }
  }
}
