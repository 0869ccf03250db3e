/** Splitting at a separator and its inverse, terminated records, and small facts about sequences. */
module Text {
  function Split<T(==)>(s: seq<T>, sep: T): (parts: seq<seq<T>>)
    ensures |parts| >= 1
  {
    if s == [] then [[]]
    else
      var rest := Split(s[1..], sep);
      if s[0] == sep then [[]] + rest else [[s[0]] + rest[0]] + rest[1..]
  }

  function Join<T>(parts: seq<seq<T>>, sep: T): seq<T>
    requires |parts| >= 1
  {
    if |parts| == 1 then parts[0] else parts[0] + [sep] + Join(parts[1..], sep)
  }

  /** Every record followed by the terminator, as in Git's -z output. */
  function Terminated<T>(records: seq<seq<T>>, sep: T): seq<T> {
    if records == [] then [] else records[0] + [sep] + Terminated(records[1..], sep)
  }

  lemma {:induction false} SplitPartsArePlain<T>(s: seq<T>, sep: T)
    ensures forall i | 0 <= i < |Split(s, sep)| :: sep !in Split(s, sep)[i]
  {
    if s != [] {
      SplitPartsArePlain(s[1..], sep);
    }
  }

  lemma {:induction false} JoinOfSplit<T>(s: seq<T>, sep: T)
    ensures Join(Split(s, sep), sep) == s
  {
    if s != [] {
      JoinOfSplit(s[1..], sep);
      var rest := Split(s[1..], sep);
      if s[0] == sep {
        assert ([[]] + rest)[1..] == rest;
      } else {
        assert ([[s[0]] + rest[0]] + rest[1..])[1..] == rest[1..];
      }
    }
  }

  lemma {:induction false} SplitOfPlain<T>(s: seq<T>, sep: T)
    requires sep !in s
    ensures Split(s, sep) == [s]
  {
    if s != [] {
      SplitOfPlain(s[1..], sep);
      assert [s[0]] + s[1..] == s;
    }
  }

  lemma {:induction false} SplitAtSeparator<T>(a: seq<T>, b: seq<T>, sep: T)
    requires sep !in a
    ensures Split(a + [sep] + b, sep) == [a] + Split(b, sep)
  {
    var s := a + [sep] + b;
    if a == [] {
      assert s[1..] == b;
    } else {
      SplitAtSeparator(a[1..], b, sep);
      assert s[1..] == a[1..] + [sep] + b;
      assert [a[0]] + a[1..] == a;
    }
  }

  lemma {:induction false} SplitOfJoin<T>(parts: seq<seq<T>>, sep: T)
    requires |parts| >= 1 && forall i | 0 <= i < |parts| :: sep !in parts[i]
    ensures Split(Join(parts, sep), sep) == parts
  {
    if |parts| == 1 {
      SplitOfPlain(parts[0], sep);
    } else {
      SplitOfJoin(parts[1..], sep);
      SplitAtSeparator(parts[0], Join(parts[1..], sep), sep);
    }
  }

  lemma {:induction false} SplitOfTerminated<T>(records: seq<seq<T>>, sep: T)
    requires forall i | 0 <= i < |records| :: sep !in records[i]
    ensures Split(Terminated(records, sep), sep) == records + [[]]
  {
    if records != [] {
      SplitOfTerminated(records[1..], sep);
      SplitAtSeparator(records[0], Terminated(records[1..], sep), sep);
      assert [records[0]] + (records[1..] + [[]]) == records + [[]];
    }
  }

  lemma {:induction false} TerminatedIsJoin<T>(records: seq<seq<T>>, sep: T)
    requires records != []
    ensures Terminated(records, sep) == Join(records, sep) + [sep]
  {
    if |records| > 1 {
      TerminatedIsJoin(records[1..], sep);
    }
  }

  lemma {:induction false} TerminatedConcat<T>(a: seq<seq<T>>, b: seq<seq<T>>, sep: T)
    ensures Terminated(a + b, sep) == Terminated(a, sep) + Terminated(b, sep)
  {
    if a == [] {
      assert a + b == b;
    } else {
      TerminatedConcat(a[1..], b, sep);
      assert (a + b)[1..] == a[1..] + b;
      assert a[0] + [sep] + (Terminated(a[1..], sep) + Terminated(b, sep))
          == a[0] + [sep] + Terminated(a[1..], sep) + Terminated(b, sep);
    }
  }

  function Take<T>(s: seq<T>, n: nat): seq<T> {
    if n < |s| then s[..n] else s
  }

  function Reversed<T>(s: seq<T>): (r: seq<T>)
    ensures |r| == |s| && forall i | 0 <= i < |s| :: r[i] == s[|s| - 1 - i]
  {
    if s == [] then [] else Reversed(s[1..]) + [s[0]]
  }

  function Concat<T>(parts: seq<seq<T>>): seq<T> {
    if parts == [] then [] else parts[0] + Concat(parts[1..])
  }

  lemma {:induction false} ConcatAppend<T>(a: seq<seq<T>>, b: seq<seq<T>>)
    ensures Concat(a + b) == Concat(a) + Concat(b)
  {
    if a == [] {
      assert a + b == b;
    } else {
      ConcatAppend(a[1..], b);
      assert (a + b)[1..] == a[1..] + b;
      assert a[0] + (Concat(a[1..]) + Concat(b)) == a[0] + Concat(a[1..]) + Concat(b);
    }
  }

  ghost predicate Distinct<T>(s: seq<T>) {
    forall i, j | 0 <= i < j < |s| :: s[i] != s[j]
  }

  lemma {:induction false} DistinctFit<T>(s: seq<T>, room: set<T>)
    requires Distinct(s) && forall i | 0 <= i < |s| :: s[i] in room
    ensures |s| <= |room|
  {
    if s != [] {
      DistinctFit(s[1..], room - {s[0]});
    }
  }

  lemma {:induction false} DistinctFill<T>(s: seq<T>, room: set<T>)
    requires Distinct(s) && (forall i | 0 <= i < |s| :: s[i] in room) && (forall x <- room :: x in s)
    ensures |s| == |room|
  {
    if s != [] {
      assert forall x | x in room && x != s[0] :: x in s[1..];
      DistinctFill(s[1..], room - {s[0]});
    } else {
      assert room == {};
    }
  }
}
