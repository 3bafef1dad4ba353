/** Strings as the runtime uses them: splitting on a separator, joining again,
    and the order in which a sorted string map lists its keys. */
module Text {

  datatype Option<+T> = None | Some(value: T)

  /** The parts between separators; like Rust's `split`, never an empty list. */
  function Split(s: string, sep: char): (parts: seq<string>)
    ensures |parts| >= 1
  {
    if s == [] then [""]
    else if s[0] == sep then [""] + Split(s[1..], sep)
    else
      var rest := Split(s[1..], sep);
      [[s[0]] + rest[0]] + rest[1..]
  }

  function Join(parts: seq<string>, sep: char): string
    requires |parts| >= 1
  {
    if |parts| == 1 then parts[0] else parts[0] + [sep] + Join(parts[1..], sep)
  }

  predicate AllFree(parts: seq<string>, sep: char) {
    forall i :: 0 <= i < |parts| ==> sep !in parts[i]
  }

  /** Strip every leading occurrence of `c`. */
  function TrimStart(s: string, c: char): (r: string)
    ensures r == [] || r[0] != c
  {
    if s != [] && s[0] == c then TrimStart(s[1..], c) else s
  }

  lemma {:induction false} JoinSplit(s: string, sep: char)
    ensures Join(Split(s, sep), sep) == s
  {
    if s == [] {
    } else {
      JoinSplit(s[1..], sep);
      var rest := Split(s[1..], sep);
      var parts := Split(s, sep);
      if s[0] == sep {
        assert parts[1..] == rest;
      } else if |rest| > 1 {
        assert parts[1..] == rest[1..];
        assert parts[0] + [sep] + Join(rest[1..], sep) == [s[0]] + (rest[0] + [sep] + Join(rest[1..], sep));
      }
    }
  }

  lemma {:induction false} SplitFree(s: string, sep: char)
    ensures AllFree(Split(s, sep), sep)
  {
    if s != [] {
      SplitFree(s[1..], sep);
    }
  }

  lemma {:induction false} SplitSingle(s: string, sep: char)
    requires sep !in s
    ensures Split(s, sep) == [s]
  {
    if s != [] {
      assert s[0] in s && forall c :: c in s[1..] ==> c in s;
      SplitSingle(s[1..], sep);
      assert [s[0]] + s[1..] == s;
    }
  }

  /** Splitting a separator-free part followed by the separator and more text. */
  lemma {:induction false} SplitHead(part: string, sep: char, rest: string)
    requires sep !in part
    ensures Split(part + [sep] + rest, sep) == [part] + Split(rest, sep)
  {
    var s := part + [sep] + rest;
    if part == [] {
      assert s[1..] == rest;
    } else {
      assert part[0] in part && forall c :: c in part[1..] ==> c in part;
      SplitHead(part[1..], sep, rest);
      assert s[1..] == part[1..] + [sep] + rest;
      assert [part[0]] + part[1..] == part;
    }
  }

  lemma {:induction false} SplitJoin(parts: seq<string>, sep: char)
    requires |parts| >= 1 && AllFree(parts, sep)
    ensures Split(Join(parts, sep), sep) == parts
  {
    if |parts| == 1 {
      SplitSingle(parts[0], sep);
    } else {
      SplitJoin(parts[1..], sep);
      SplitHead(parts[0], sep, Join(parts[1..], sep));
    }
  }

  // ── Key order ───────────────────────────────────────────────────────────────

  /** Strict lexicographic order on code points. */
  predicate Less(a: string, b: string) {
    b != [] && (a == [] || a[0] < b[0] || (a[0] == b[0] && Less(a[1..], b[1..])))
  }

  lemma LessTrichotomy(a: string, b: string)
    ensures Less(a, b) || a == b || Less(b, a)
    ensures !(Less(a, b) && Less(b, a))
    ensures a == b ==> !Less(a, b)
  {}

  lemma LessTransitive(a: string, b: string, c: string)
    requires Less(a, b) && Less(b, c)
    ensures Less(a, c)
  {}

  /** The strings part at `i`, where `a` ends or has the smaller character. */
  ghost predicate PartsAt(a: string, b: string, i: nat) {
    i <= |a| && i < |b| && a[..i] == b[..i] && (i == |a| || a[i] < b[i])
  }

  lemma {:induction false} LessIffParts(a: string, b: string)
    ensures Less(a, b) <==> exists i: nat :: PartsAt(a, b, i)
    decreases |a|
  {
    if b != [] && a != [] && a[0] == b[0] {
      LessIffParts(a[1..], b[1..]);
      if i: nat :| PartsAt(a[1..], b[1..], i) {
        assert a[..i + 1] == [a[0]] + a[1..][..i] && b[..i + 1] == [b[0]] + b[1..][..i];
        assert PartsAt(a, b, i + 1);
      }
      if i: nat :| PartsAt(a, b, i) {
        assert i > 0 && a[1..][..i - 1] == a[..i][1..] && b[1..][..i - 1] == b[..i][1..];
        assert PartsAt(a[1..], b[1..], i - 1);
      }
    } else if Less(a, b) {
      assert PartsAt(a, b, 0);
    } else {
      forall i: nat ensures !PartsAt(a, b, i) {
        if 0 < i <= |a| && i < |b| {
          assert a[..i][0] == a[0] && b[..i][0] == b[0];
        }
      }
    }
  }

  ghost predicate IsLeast(x: string, s: set<string>) {
    x in s && forall y :: y in s ==> y == x || Less(x, y)
  }

  lemma LeastExists(s: set<string>)
    requires s != {}
    ensures exists x :: IsLeast(x, s)
  {
    var x :| x in s;
    if s == {x} {
      assert IsLeast(x, s);
    } else {
      LeastExists(s - {x});
      var y :| IsLeast(y, s - {x});
      LessTrichotomy(x, y);
      if Less(x, y) {
        forall z | z in s ensures z == x || Less(x, z) {
          if z != x && z != y { LessTransitive(x, y, z); }
        }
        assert IsLeast(x, s);
      } else {
        assert IsLeast(y, s);
      }
    }
  }

  function Least(s: set<string>): (x: string)
    requires s != {}
    ensures IsLeast(x, s)
  {
    LeastExists(s);
    assert forall x, y | x in s && y in s && x != y :: !(Less(x, y) && Less(y, x)) by {
      forall x, y | x in s && y in s && x != y ensures !(Less(x, y) && Less(y, x)) { LessTrichotomy(x, y); }
    }
    assert exists x :: x in s && forall y :: y in s ==> y == x || Less(x, y) by {
      var x :| IsLeast(x, s);
    }
    var x :| x in s && forall y :: y in s ==> y == x || Less(x, y);
    x
  }

  ghost predicate Ascending(keys: seq<string>) {
    forall i, j :: 0 <= i < j < |keys| ==> Less(keys[i], keys[j])
  }

  /** The keys of a sorted map in iteration order. */
  function SortedKeys(s: set<string>): (keys: seq<string>)
    ensures Ascending(keys)
    ensures forall k :: k in keys <==> k in s
    ensures forall i :: 0 <= i < |keys| ==> keys[i] in s
  {
    if s == {} then [] else
      var x := Least(s);
      [x] + SortedKeys(s - {x})
  }
}
