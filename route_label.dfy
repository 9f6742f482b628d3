/**
 * The route label of an assignment, "pickup -> drop", and the way the route
 * map reads the two ends back: JavaScript's `split('->')` followed by
 * `trim()` on the first and second pieces.
 */
module RouteLabel {
  import opened Wrappers

  const Arrow: string := "->"

  /** The label the optimiser stores in an assignment. */
  function Route(pickup: string, drop: string): (r: string)
    ensures |r| == |pickup| + 4 + |drop|
    ensures r[..|pickup|] == pickup && r[|pickup| + 4..] == drop
    ensures r[|pickup|..|pickup| + 4] == " -> "
  {
    pickup + " -> " + drop
  }

  /** True when "->" occurs in s. */
  predicate HasArrow(s: string)
    decreases |s|
  {
    |s| >= 2 && ((s[0] == '-' && s[1] == '>') || HasArrow(s[1..]))
  }

  /** Joining two arrow-free strings creates no arrow unless one ends in '-' and the other starts with '>'. */
  lemma {:induction false} NoArrowAppend(a: string, b: string)
    requires !HasArrow(a) && !HasArrow(b)
    requires a == [] || b == [] || !(a[|a| - 1] == '-' && b[0] == '>')
    ensures !HasArrow(a + b)
    decreases |a|
  {
    if a == [] {
      assert a + b == b;
    } else {
      var ab := a + b;
      assert ab[1..] == a[1..] + b;
      if |a| >= 2 {
        assert ab[0] == a[0] && ab[1] == a[1];
        assert a[1..][|a[1..]| - 1] == a[|a| - 1];
        NoArrowAppend(a[1..], b);
      } else {
        assert a[1..] + b == b;
        if b != [] {
          assert ab[0] == a[0] && ab[1] == b[0];
        }
      }
    }
  }

  /**
   * `s.split('->')`: the pieces between non-overlapping occurrences of the
   * separator, found from left to right. No piece contains the separator,
   * the first piece is a prefix of s, and a single piece is s itself.
   */
  function SplitArrow(s: string): (parts: seq<string>)
    ensures |parts| >= 1
    ensures forall i :: 0 <= i < |parts| ==> !HasArrow(parts[i])
    ensures parts[0] <= s
    ensures |parts| == 1 <==> !HasArrow(s)
    ensures |parts| == 1 ==> parts[0] == s
    decreases |s|
  {
    if |s| < 2 then [s]
    else if s[0] == '-' && s[1] == '>' then [""] + SplitArrow(s[2..])
    else
      var rest := SplitArrow(s[1..]);
      assert [s[0]] + s[1..] == s;
      var first := [s[0]] + rest[0];
      assert first[1..] == rest[0];
      assert !HasArrow(first) by {
        if |first| >= 2 {
          assert first[1] == rest[0][0] == s[1];
        }
      }
      [first] + rest[1..]
  }

  /** `parts.join('->')`. */
  function Join(parts: seq<string>): string
    requires |parts| >= 1
    decreases |parts|
  {
    if |parts| == 1 then parts[0] else parts[0] + Arrow + Join(parts[1..])
  }

  /** Every string is the join of its pieces. */
  lemma {:induction false} SplitJoin(s: string)
    ensures Join(SplitArrow(s)) == s
    decreases |s|
  {
    if |s| < 2 {
    } else if s[0] == '-' && s[1] == '>' {
      SplitJoin(s[2..]);
      var tail := SplitArrow(s[2..]);
      assert ([""] + tail)[1..] == tail;
      assert s == "" + Arrow + s[2..];
    } else {
      SplitJoin(s[1..]);
      var rest := SplitArrow(s[1..]);
      assert SplitArrow(s) == [[s[0]] + rest[0]] + rest[1..];
      JoinPrepend([s[0]], rest);
      assert s == [s[0]] + s[1..];
    }
  }

  /** Text put before the first piece ends up at the front of the join. */
  lemma {:induction false} JoinPrepend(c: string, parts: seq<string>)
    requires |parts| >= 1
    ensures Join([c + parts[0]] + parts[1..]) == c + Join(parts)
  {
    var q := [c + parts[0]] + parts[1..];
    assert |q| == |parts| && q[0] == c + parts[0];
    if |parts| == 1 {
      assert Join(q) == q[0];
    } else {
      assert q[1..] == parts[1..];
      assert Join(q) == (c + parts[0]) + Arrow + Join(parts[1..]);
      assert Join(parts) == parts[0] + Arrow + Join(parts[1..]);
    }
  }

  /** Pieces without the separator come back from their join: the inverse direction of SplitJoin. */
  lemma {:induction false} JoinSplit(parts: seq<string>)
    requires |parts| >= 1
    requires forall i :: 0 <= i < |parts| ==> !HasArrow(parts[i])
    ensures SplitArrow(Join(parts)) == parts
    decreases |parts|
  {
    if |parts| > 1 {
      JoinSplit(parts[1..]);
      assert Join(parts) == parts[0] + (Arrow + Join(parts[1..]));
      SplitAfter(parts[0], Arrow + Join(parts[1..]));
      assert (Arrow + Join(parts[1..]))[2..] == Join(parts[1..]);
      assert parts == [parts[0]] + parts[1..];
    }
  }

  /** Splitting at the first separator, when the text before it has none. */
  lemma {:induction false} SplitAfter(p: string, rest: string)
    requires !HasArrow(p)
    requires |rest| >= 2 && rest[0] == '-' && rest[1] == '>'
    ensures SplitArrow(p + rest) == [p] + SplitArrow(rest[2..])
    decreases |p|
  {
    if p == [] {
      assert p + rest == rest;
    } else {
      var s := p + rest;
      assert s[0] == p[0];
      assert s[1] == if |p| >= 2 then p[1] else rest[0];
      assert s[1..] == p[1..] + rest;
      SplitAfter(p[1..], rest);
      assert [s[0]] + p[1..] == p;
    }
  }

  /** The characters `String.prototype.trim` removes that this model knows of. */
  predicate IsSpace(c: char)
  {
    c == ' ' || c == '\t' || c == '\n' || c == '\r' || c == '\U{000B}' || c == '\U{000C}'
    || c == '\U{00A0}' || c == '\U{FEFF}' || c == '\U{2028}' || c == '\U{2029}'
  }

  function TrimStart(s: string): (r: string)
    ensures |r| <= |s| && r == s[|s| - |r|..]
    ensures r == [] || !IsSpace(r[0])
    ensures forall i :: 0 <= i < |s| - |r| ==> IsSpace(s[i])
  {
    if s != [] && IsSpace(s[0]) then
      var r := TrimStart(s[1..]);
      assert s[1..][|s| - 1 - |r|..] == s[|s| - |r|..];
      assert forall i :: 1 <= i < |s| - |r| ==> s[i] == s[1..][i - 1];
      r
    else s
  }

  function TrimEnd(s: string): (r: string)
    ensures |r| <= |s| && r == s[..|r|]
    ensures r == [] || !IsSpace(r[|r| - 1])
    ensures forall i :: |r| <= i < |s| ==> IsSpace(s[i])
  {
    if s != [] && IsSpace(s[|s| - 1]) then
      var r := TrimEnd(s[..|s| - 1]);
      assert s[..|s| - 1][..|r|] == s[..|r|];
      assert forall i :: |r| <= i < |s| - 1 ==> s[i] == s[..|s| - 1][i];
      r
    else s
  }

  /** A string `trim()` leaves unchanged: it neither starts nor ends with white space. */
  predicate Trimmed(s: string)
  {
    s == [] || (!IsSpace(s[0]) && !IsSpace(s[|s| - 1]))
  }

  /** `s.trim()`: the result has no surrounding white space, and a trimmed string is kept as it is. */
  function Trim(s: string): (r: string)
    ensures |r| <= |s|
    ensures Trimmed(r)
    ensures Trimmed(s) ==> r == s
  {
    var t := TrimStart(s);
    var r := TrimEnd(t);
    assert Trimmed(r) by {
      if r != [] {
        assert r[0] == t[0];
      }
    }
    assert Trimmed(s) ==> r == s by {
      if Trimmed(s) && s != [] {
        assert t == s;
      }
    }
    r
  }

  /** r sits in s at offset k, and everything of s before and after it is white space. */
  ghost predicate CutAt(s: string, r: string, k: int)
  {
    && 0 <= k <= |s| - |r|
    && r == s[k..k + |r|]
    && (forall i :: 0 <= i < k ==> IsSpace(s[i]))
    && (forall i :: k + |r| <= i < |s| ==> IsSpace(s[i]))
  }

  /**
   * `trim()` cuts the input exactly: the result is the slice of s that
   * starts after the leading white space, and everything of s before and
   * after that slice is white space.
   */
  lemma TrimSlice(s: string)
    ensures CutAt(s, Trim(s), |s| - |TrimStart(s)|)
  {
    var t := TrimStart(s);
    var r := TrimEnd(t);
    assert r == Trim(s);
    CutAround(s, t, r);
  }

  /** A prefix r of a suffix t of s is a slice of s. */
  lemma CutAround(s: string, t: string, r: string)
    requires |t| <= |s| && t == s[|s| - |t|..]
    requires |r| <= |t| && r == t[..|r|]
    requires forall i :: 0 <= i < |s| - |t| ==> IsSpace(s[i])
    requires forall i :: |r| <= i < |t| ==> IsSpace(t[i])
    ensures CutAt(s, r, |s| - |t|)
  {
    var k := |s| - |t|;
    forall i | 0 <= i < |t|
      ensures t[i] == s[k + i]
    {
      assert t[i] == s[k..][i];
    }
    forall i | 0 <= i < |r|
      ensures r[i] == t[i]
    {
      assert r[i] == t[..|r|][i];
    }
    forall i | k + |r| <= i < |s|
      ensures IsSpace(s[i])
    {
      assert s[i] == t[i - k];
    }
    assert r == s[k..k + |r|];
  }

  /** The pickup end the map shows: the first piece, trimmed; for a route without "->", the whole route trimmed. */
  function PickupLabel(route: string): (r: string)
    ensures Trimmed(r)
    ensures !HasArrow(route) ==> r == Trim(route)
  {
    Trim(SplitArrow(route)[0])
  }

  /** The drop end the map shows; a route without "->" has no second piece (undefined in the source). */
  function DropLabel(route: string): (r: Option<string>)
    ensures r.Some? <==> HasArrow(route)
    ensures r.Some? ==> Trimmed(r.value)
  {
    var parts := SplitArrow(route);
    if |parts| < 2 then None else Some(Trim(parts[1]))
  }

  lemma TrimSuffixSpace(p: string)
    requires Trimmed(p)
    ensures Trim(p + " ") == p
  {
    var s := p + " ";
    assert s[..|s| - 1] == p;
    assert s[0] == if p == [] then ' ' else p[0];
    if p == [] {
      assert TrimStart(s) == TrimStart(s[1..]) == [];
    } else {
      assert TrimStart(s) == s;
      assert TrimEnd(s) == TrimEnd(p);
      assert TrimEnd(p) == p;
    }
  }

  lemma TrimPrefixSpace(d: string)
    requires Trimmed(d)
    ensures Trim(" " + d) == d
  {
    var s := " " + d;
    assert s[1..] == d;
    assert TrimStart(s) == TrimStart(d) == d;
  }

  /** Splitting a route label on "->" gives the two ends with the spaces around the arrow. */
  lemma RouteSplit(pickup: string, drop: string)
    requires !HasArrow(pickup) && !HasArrow(drop)
    ensures SplitArrow(Route(pickup, drop)) == [pickup + " ", " " + drop]
  {
    var parts := [pickup + " ", " " + drop];
    NoArrowAppend(pickup, " ");
    NoArrowAppend(" ", drop);
    RouteJoin(pickup, drop);
    JoinSplit(parts);
  }

  /** A route label is the join of its two padded ends. */
  lemma RouteJoin(pickup: string, drop: string)
    ensures Route(pickup, drop) == Join([pickup + " ", " " + drop])
  {
    var parts := [pickup + " ", " " + drop];
    assert Join(parts[1..]) == " " + drop;
    assert Join(parts) == (pickup + " ") + Arrow + (" " + drop);
    assert (pickup + " ") + Arrow + (" " + drop) == pickup + " -> " + drop;
  }

  /**
   * The map recovers both ends of a route when neither contains "->" and
   * neither has surrounding white space.
   */
  lemma RouteRoundTrip(pickup: string, drop: string)
    requires !HasArrow(pickup) && !HasArrow(drop)
    requires Trimmed(pickup) && Trimmed(drop)
    ensures PickupLabel(Route(pickup, drop)) == pickup
    ensures DropLabel(Route(pickup, drop)) == Some(drop)
  {
    var route := Route(pickup, drop);
    RouteSplit(pickup, drop);
    var parts := SplitArrow(route);
    assert |parts| == 2 && parts[0] == pickup + " " && parts[1] == " " + drop;
    TrimSuffixSpace(pickup);
    TrimPrefixSpace(drop);
    assert PickupLabel(route) == Trim(pickup + " ");
    assert DropLabel(route) == Some(Trim(" " + drop));
  }
}
