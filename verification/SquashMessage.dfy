/** The generated squash message: a header, as many oldest-first subjects as fit the byte budget, and how many were left
    out. */
module SquashMessage {
  import opened CodeUnits
  import opened JsonBytes
  import opened Text

  const MAX_MESSAGE_JSON_BYTES := 8192
  const MAX_SUBJECT := 120
  const ELLIPSIS: Unit := 0x2026
  const HYPHEN: Unit := 45

  predicate MessageFits(message: Source) {
    MessageJsonBytes(message) <= MAX_MESSAGE_JSON_BYTES
  }

  /** A literal of the source, as code units. */
  function Units(s: string): (t: Source)
    requires forall i | 0 <= i < |s| :: s[i] as int < 0x80
    ensures |t| == |s| && Ascii(t) && forall i | 0 <= i < |s| :: t[i] == s[i] as int
  {
    seq(|s|, i requires 0 <= i < |s| => s[i] as int)
  }

  function Decimal(n: nat): (t: Source)
    ensures t != [] && forall i | 0 <= i < |t| :: 0x30 <= t[i] <= 0x39
  {
    if n < 10 then [0x30 + n] else Decimal(n / 10) + [0x30 + n % 10]
  }

  /** What a row of decimal digits denotes. */
  function Numeral(digits: Source): nat
    requires forall i | 0 <= i < |digits| :: 0x30 <= digits[i] <= 0x39
  {
    if digits == [] then 0 else 10 * Numeral(digits[..|digits| - 1]) + (digits[|digits| - 1] - 0x30)
  }

  /** A count is shown as the one numeral that denotes it without a leading zero. */
  lemma {:induction false} DecimalDenotes(n: nat)
    ensures Numeral(Decimal(n)) == n && (Decimal(n)[0] == 0x30 ==> |Decimal(n)| == 1)
  {
    if n >= 10 {
      DecimalDenotes(n / 10);
      assert Decimal(n)[..|Decimal(n)| - 1] == Decimal(n / 10);
      LeadingDigit(n / 10);
    }
  }

  lemma {:induction false} LeadingDigit(n: nat)
    requires n > 0
    ensures Decimal(n)[0] != 0x30
  {
    if n >= 10 {
      LeadingDigit(n / 10);
    }
  }

  function Plural(n: nat): Source {
    if n == 1 then [] else Units("s")
  }

  function Provenance(mergeBase: Source, head: Source, commitCount: nat): (t: Source)
    ensures t != [] && t[0] == SPACE
  {
    Units(" (") + Take(mergeBase, 7) + Units("..") + Take(head, 7) + Units(", ") + Decimal(commitCount) + Units(" commit")
    + Plural(commitCount) + Units(").\n\n")
  }

  function Header(branch: Source, mergeBase: Source, head: Source, commitCount: nat): Source {
    Units("Squash ") + (branch + (Units("\n\nSquash of ") + (branch + Provenance(mergeBase, head, commitCount))))
  }

  function Bullet(subject: Source): (line: Source)
    ensures |line| >= 2 && line[0] == 0x2D && line[1] == 0x20
    ensures |subject| <= 120 ==> line[2..] == subject
    ensures |subject| > 120 ==> line[2..] == subject[..119] + [0x2026]
  {
    [HYPHEN, SPACE] + if |subject| > MAX_SUBJECT then subject[..MAX_SUBJECT - 1] + [ELLIPSIS] else subject
  }

  function TrailerHead(): Source {
    [HYPHEN, SPACE, ELLIPSIS] + Units(" and ")
  }

  function TrailerTail(): Source {
    Units(" more commit")
  }

  function Trailer(omitted: nat): (line: Source)
    ensures |line| >= 1 && line[0] == HYPHEN
  {
    TrailerHead() + (Decimal(omitted) + (TrailerTail() + Plural(omitted)))
  }

  /** The inputs of one message, subjects newest first. */
  datatype Squash = Squash(branch: Source, mergeBase: Source, head: Source, commitCount: nat, subjects: seq<Source>)

  function Lines(q: Squash): (lines: seq<Source>)
    ensures |lines| == |q.subjects|
    ensures forall i | 0 <= i < |lines| :: lines[i] == Bullet(q.subjects[|q.subjects| - 1 - i])
  {
    seq(|q.subjects|, i requires 0 <= i < |q.subjects| => Bullet(q.subjects[|q.subjects| - 1 - i]))
  }

  /** The list under the header: the oldest `included` subjects, and the count of the others if there are any. */
  function Listed(q: Squash, included: nat): (list: seq<Source>)
    requires included <= |q.subjects|
    ensures forall i | 0 <= i < |list| :: list[i] != [] && list[i][0] == HYPHEN
  {
    Lines(q)[..included] + if q.commitCount > included then [Trailer(q.commitCount - included)] else []
  }

  function JoinLines(lines: seq<Source>): Source {
    if lines == [] then [] else Join(lines, LF)
  }

  function Render(q: Squash, included: nat): Source
    requires included <= |q.subjects|
  {
    Header(q.branch, q.mergeBase, q.head, q.commitCount) + (JoinLines(Listed(q, included)) + [LF])
  }

  function Fallback(q: Squash): Source {
    Units("Squash ") + (Take(q.branch, 200) + [LF])
  }

  predicate Fits(q: Squash, included: nat) {
    included <= |q.subjects| && MessageFits(Render(q, included))
  }

  /** Where a loop stops that goes on from `from` while the next number fits. */
  function Stop(fits: nat -> bool, from: nat, limit: nat): (k: nat)
    requires from <= limit
    ensures from <= k <= limit
    ensures forall i | from < i <= k :: fits(i)
    ensures k < limit ==> !fits(k + 1)
    decreases limit - from
  {
    if from < limit && fits(from + 1) then Stop(fits, from + 1, limit) else from
  }

  function FitTest(q: Squash): nat -> bool {
    (i: nat) => Fits(q, i)
  }

  /** How many subjects the greedy loop includes. */
  function Greedy(q: Squash): nat {
    Stop(FitTest(q), 0, |q.subjects|)
  }

  lemma GreedyStops(q: Squash)
    ensures Greedy(q) <= |q.subjects|
    ensures forall i | 0 < i <= Greedy(q) :: Fits(q, i)
    ensures Greedy(q) < |q.subjects| ==> !Fits(q, Greedy(q) + 1)
  {
    forall i | 0 < i <= Greedy(q) ensures Fits(q, i) {
      assert FitTest(q)(i);
    }
    assert Greedy(q) < |q.subjects| ==> !FitTest(q)(Greedy(q) + 1);
  }

  method DefaultSquashMessage(q: Squash) returns (message: Source)
    ensures MessageJsonBytes(message) <= 8192
    ensures Fits(q, Greedy(q)) ==> message == Render(q, Greedy(q))
    ensures !Fits(q, Greedy(q)) ==> message == Fallback(q)
  {
    var included := 0;
    while included < |q.subjects| && Fits(q, included + 1)
      invariant included <= |q.subjects| && Greedy(q) == Stop(FitTest(q), included, |q.subjects|)
    {
      assert FitTest(q)(included + 1);
      included := included + 1;
    }
    assert included < |q.subjects| ==> !FitTest(q)(included + 1);
    message := Render(q, included);
    if !MessageFits(message) {
      message := Fallback(q);
      FallbackFits(q);
    }
  }

  lemma FallbackFits(q: Squash)
    ensures MessageFits(Fallback(q))
  {
    JsonBytesAreCost(Fallback(q));
    CostBounds(Fallback(q));
  }

  // ---- Sizes ----

  lemma {:induction false} DigitsGrow(n: nat)
    ensures |Decimal(n)| <= |Decimal(n + 1)| <= |Decimal(n)| + 1
  {
    if n >= 10 {
      if n % 10 == 9 {
        DigitsGrow(n / 10);
        assert (n + 1) / 10 == n / 10 + 1;
      } else {
        assert (n + 1) / 10 == n / 10;
      }
    }
  }

  predicate StartsWhole(s: Source) {
    s == [] || !Low(s[0])
  }

  lemma CostOfFour(a: Source, b: Source, c: Source, d: Source)
    requires b != [] && c != [] && StartsWhole(b) && StartsWhole(c) && StartsWhole(d)
    ensures Cost(a + (b + (c + d))) == Cost(a) + Cost(b) + Cost(c) + Cost(d)
  {
    CostConcat(c, d);
    CostConcat(b, c + d);
    CostConcat(a, b + (c + d));
  }

  lemma TrailerPieces(head: Source, digits: Source, tail: Source, plural: Source)
    requires digits != [] && tail != [] && Plain(digits) && Plain(plural) && StartsWhole(tail)
    ensures Cost(head + (digits + (tail + plural))) == Cost(head) + Cost(tail) + |digits| + |plural|
  {
    CostOfPlain(digits);
    CostOfPlain(plural);
    CostOfFour(head, digits, tail, plural);
  }

  lemma TrailerCost(n: nat) returns (words: nat)
    ensures words == Cost(TrailerHead()) + Cost(TrailerTail())
    ensures Cost(Trailer(n)) == words + |Decimal(n)| + |Plural(n)|
  {
    words := Cost(TrailerHead()) + Cost(TrailerTail());
    TrailerParts(n);
    TrailerPieces(TrailerHead(), Decimal(n), TrailerTail(), Plural(n));
  }

  lemma TrailerParts(n: nat)
    ensures Decimal(n) != [] && Plain(Decimal(n)) && Plain(Plural(n)) && TrailerTail() != [] && StartsWhole(TrailerTail())
  {
  }

  lemma PluralSize(n: nat)
    ensures |Plural(n)| == if n == 1 then 0 else 1
  {
  }

  lemma TrailerCosts(m: nat, n: nat) returns (words: nat)
    ensures Cost(Trailer(m)) == words + |Decimal(m)| + |Plural(m)|
    ensures Cost(Trailer(n)) == words + |Decimal(n)| + |Plural(n)|
  {
    words := TrailerCost(m);
    var again := TrailerCost(n);
  }

  /** Naming one more commit and leaving out one fewer makes the trailer at most two bytes shorter. */
  lemma TrailerShrinksLittle(n: nat)
    requires n >= 1
    ensures Cost(Trailer(n)) >= Cost(Trailer(n + 1)) - 2
  {
    var words := TrailerCosts(n, n + 1);
    DigitsGrow(n);
    PluralSize(n);
    PluralSize(n + 1);
  }

  lemma LineFeedCost(rest: Source)
    requires rest == [] || !Low(rest[0])
    ensures Cost([LF] + rest) == 2 + Cost(rest)
  {
    assert ([LF] + rest)[1..] == rest;
  }

  function ListCost(lines: seq<Source>): nat {
    if lines == [] then 0 else Cost(lines[0]) + (if |lines| > 1 then 2 else 0) + ListCost(lines[1..])
  }

  lemma {:induction false} JoinCost(lines: seq<Source>)
    requires forall i | 0 <= i < |lines| :: lines[i] != [] && lines[i][0] == HYPHEN
    ensures Cost(JoinLines(lines)) == ListCost(lines)
  {
    if |lines| == 1 {
      assert ListCost(lines[1..]) == 0;
    } else if |lines| > 1 {
      JoinCost(lines[1..]);
      var rest := Join(lines[1..], LF);
      assert rest[0] == HYPHEN by { assert lines[1..][0] == lines[1]; }
      LineFeedCost(rest);
      CostConcat(lines[0], [LF] + rest);
      assert lines[0] + [LF] + rest == lines[0] + ([LF] + rest);
    }
  }

  lemma {:induction false} ListCostAppend(lines: seq<Source>, last: Source)
    ensures ListCost(lines + [last]) == ListCost(lines) + (if lines == [] then 0 else 2) + Cost(last)
  {
    if lines == [] {
      assert lines + [last] == [last];
    } else {
      ListCostAppend(lines[1..], last);
      assert (lines + [last])[1..] == lines[1..] + [last];
    }
  }

  /** The size of a rendering, but for what does not depend on the list. */
  lemma RenderSize(q: Squash, included: nat) returns (fixed: nat)
    requires included <= |q.subjects|
    ensures fixed == Cost(Header(q.branch, q.mergeBase, q.head, q.commitCount)) + 4
    ensures MessageJsonBytes(Render(q, included)) == fixed + ListCost(Listed(q, included))
  {
    fixed := Cost(Header(q.branch, q.mergeBase, q.head, q.commitCount)) + 4;
    var list := Listed(q, included);
    var body := JoinLines(list);
    JoinCost(list);
    LineFeedCost([]);
    assert [LF] + [] == [LF];
    CostConcat(body, [LF]);
    assert body + [LF] != [] && ((body + [LF])[0] == HYPHEN || (body + [LF])[0] == LF) by {
      if list != [] { assert body[0] == list[0][0]; }
    }
    CostConcat(Header(q.branch, q.mergeBase, q.head, q.commitCount), body + [LF]);
    JsonBytesAreCost(Render(q, included));
  }

  lemma ListedGrows(shorter: seq<Source>, line: Source, left: nat)
    requires Cost(line) >= 2
    ensures ListCost(shorter + [line]) > ListCost(shorter)
    ensures left >= 1 ==> ListCost(shorter + [line] + [Trailer(left)]) > ListCost(shorter + [Trailer(left + 1)])
  {
    ListCostAppend(shorter, line);
    if left >= 1 {
      ListCostAppend(shorter, Trailer(left + 1));
      ListCostAppend(shorter + [line], Trailer(left));
      TrailerShrinksLittle(left);
    }
  }

  lemma RenderSizes(q: Squash, i: nat, j: nat) returns (fixed: nat)
    requires i <= |q.subjects| && j <= |q.subjects|
    ensures MessageJsonBytes(Render(q, i)) == fixed + ListCost(Listed(q, i))
    ensures MessageJsonBytes(Render(q, j)) == fixed + ListCost(Listed(q, j))
  {
    fixed := RenderSize(q, i);
    var again := RenderSize(q, j);
  }

  lemma OneMoreListed(q: Squash, included: nat)
    requires included < |q.subjects| && included + 1 != q.commitCount
    ensures ListCost(Listed(q, included)) < ListCost(Listed(q, included + 1))
  {
    var shorter, line := Lines(q)[..included], Lines(q)[included];
    assert Lines(q)[..included + 1] == shorter + [line];
    BulletCost(q.subjects[|q.subjects| - 1 - included]);
    var left := if q.commitCount > included + 1 then q.commitCount - included - 1 else 0;
    ListedGrows(shorter, line, left);
    assert left == 0 ==> Listed(q, included) == shorter && Listed(q, included + 1) == shorter + [line];
  }

  /** While commits are still left out, listing one more makes the message strictly longer. */
  lemma ListingOneMoreGrows(q: Squash, included: nat)
    requires included < |q.subjects| && included + 1 != q.commitCount
    ensures MessageJsonBytes(Render(q, included)) < MessageJsonBytes(Render(q, included + 1))
  {
    var fixed := RenderSizes(q, included, included + 1);
    OneMoreListed(q, included);
  }

  lemma BulletCost(subject: Source)
    ensures Cost(Bullet(subject)) >= 2
  {
    var line := Bullet(subject);
    assert !Paired(line) && !Paired(line[1..]);
  }

  lemma {:induction false} SizesGrow(q: Squash, low: nat, high: nat)
    requires low <= high <= |q.subjects| && (high < q.commitCount || q.commitCount <= low)
    ensures MessageJsonBytes(Render(q, low)) <= MessageJsonBytes(Render(q, high))
    decreases high
  {
    if low < high {
      SizesGrow(q, low, high - 1);
      ListingOneMoreGrows(q, high - 1);
    }
  }

  // ---- What the generated message is ----

  /** No longer listing that still leaves out a commit would have fit. */
  lemma NoLongerPartialListingFits(q: Squash, j: nat)
    requires Greedy(q) < j <= |q.subjects| && j < q.commitCount
    ensures !MessageFits(Render(q, j))
  {
    GreedyStops(q);
    LongerFailsToo(q, Greedy(q) + 1, j);
  }

  lemma LongerFailsToo(q: Squash, low: nat, high: nat)
    requires low <= high <= |q.subjects| && (high < q.commitCount || q.commitCount <= low) && !Fits(q, low)
    ensures !Fits(q, high)
  {
    SizesGrow(q, low, high);
  }

  /** The message lists an oldest-first prefix and accounts for every commit. */
  lemma ListedAndOmittedAddUp(q: Squash, included: nat)
    requires included <= |q.subjects| <= q.commitCount
    ensures var list := Listed(q, included);
            && (forall i | 0 <= i < included :: list[i] == Bullet(q.subjects[|q.subjects| - 1 - i]))
            && (included < q.commitCount ==> |list| == included + 1 && list[included] == Trailer(q.commitCount - included))
            && (included == q.commitCount ==> |list| == included)
  {
  }

  /** The full listing fits although the one that leaves out a single commit does not. */
  predicate LastStepShrinks(q: Squash) {
    2 <= q.commitCount <= |q.subjects|
    && Fits(q, q.commitCount) && !Fits(q, q.commitCount - 1)
  }

  /** Beyond the greedy listing nothing fits once a later one that leaves out no commit does not. */
  lemma FullListingsFail(q: Squash, j: nat)
    requires Greedy(q) + 1 < q.commitCount <= j <= |q.subjects| && !LastStepShrinks(q)
    ensures !Fits(q, j)
  {
    GreedyStops(q);
    LongerFailsToo(q, Greedy(q) + 1, q.commitCount - 1);
    LongerFailsToo(q, q.commitCount, j);
  }

  lemma ListingsPastTheEndFail(q: Squash, j: nat)
    requires Greedy(q) < j <= |q.subjects| && q.commitCount <= Greedy(q) + 1
    ensures !Fits(q, j)
  {
    GreedyStops(q);
    LongerFailsToo(q, Greedy(q) + 1, j);
  }

  lemma NothingBeyondGreedyFits(q: Squash, j: nat)
    requires Greedy(q) < j <= |q.subjects| && !LastStepShrinks(q)
    ensures !Fits(q, j)
  {
    if j < q.commitCount {
      NoLongerPartialListingFits(q, j);
    } else if q.commitCount <= Greedy(q) + 1 {
      ListingsPastTheEndFail(q, j);
    } else {
      FullListingsFail(q, j);
    }
  }

  /** The greedy listing is the longest that fits, except exactly when naming the last commit is what shortens the
      message enough. */
  lemma GreedyIsLongest(q: Squash)
    ensures (forall j | Greedy(q) < j <= |q.subjects| :: !Fits(q, j)) <==> !LastStepShrinks(q)
  {
    if !LastStepShrinks(q) {
      forall j | Greedy(q) < j <= |q.subjects| ensures !Fits(q, j) {
        NothingBeyondGreedyFits(q, j);
      }
    } else {
      GreedyStops(q);
      assert Fits(q, q.commitCount);
    }
  }

  /** Listing the last commit left out trades the trailer for its line. */
  lemma LastLineForTrailer(q: Squash)
    requires 2 <= q.commitCount <= |q.subjects|
    ensures MessageJsonBytes(Render(q, q.commitCount)) + Cost(Trailer(1))
            == MessageJsonBytes(Render(q, q.commitCount - 1)) + Cost(Lines(q)[q.commitCount - 1])
  {
    var n := q.commitCount - 1;
    var shorter, line := Lines(q)[..n], Lines(q)[n];
    assert Lines(q)[..n + 1] == shorter + [line];
    var fixed := RenderSizes(q, n, n + 1);
    assert Listed(q, n) == shorter + [Trailer(1)] && Listed(q, n + 1) == shorter + [line] + [];
    assert shorter + [line] + [] == shorter + [line];
    ListCostAppend(shorter, Trailer(1));
    ListCostAppend(shorter, line);
  }

  /** The exception in terms of the input: the newest listed commit's line is shorter than "- … and 1 more commit", and the
      full listing fits with less room to spare than that difference. */
  lemma LastStepShrinksExactly(q: Squash)
    ensures LastStepShrinks(q) <==>
              && 2 <= q.commitCount <= |q.subjects| && Cost(Lines(q)[q.commitCount - 1]) < Cost(Trailer(1))
              && var full := MessageJsonBytes(Render(q, q.commitCount));
                 full <= MAX_MESSAGE_JSON_BYTES < full + Cost(Trailer(1)) - Cost(Lines(q)[q.commitCount - 1])
  {
    if 2 <= q.commitCount <= |q.subjects| {
      LastLineForTrailer(q);
    }
  }

  // ---- The exception is real ----

  lemma HeaderPieces(a: Source, branch: Source, b: Source, c: Source)
    requires Plain(branch) && b != [] && c != [] && StartsWhole(b) && StartsWhole(c)
    ensures Cost(a + (branch + (b + (branch + c)))) == Cost(a) + Cost(b) + Cost(c) + 2 * |branch|
  {
    CostOfPlain(branch);
    CostConcat(branch, c);
    CostConcat(b, branch + c);
    CostConcat(branch, b + (branch + c));
    CostConcat(a, branch + (b + (branch + c)));
  }

  lemma EmptyBullet()
    ensures Cost(Bullet([])) == 2
  {
    CostOfPlain([HYPHEN, SPACE]);
    assert Bullet([]) == [HYPHEN, SPACE];
  }

  lemma TrailerIsLong(n: nat)
    ensures Cost(Trailer(n)) >= 12
  {
    var words := TrailerCost(n);
    CostBounds(TrailerTail());
    assert |TrailerTail()| == 12;
  }

  lemma TwoEmptySubjects(q: Squash)
    requires q.commitCount == 2 && q.subjects == [[], []]
    ensures MessageJsonBytes(Render(q, 1)) >= MessageJsonBytes(Render(q, 2)) + 10
    ensures MessageJsonBytes(Render(q, 2)) == Cost(Header(q.branch, q.mergeBase, q.head, 2)) + 10
  {
    var bullet := Bullet([]);
    var fixed := RenderSize(q, 1);
    var again := RenderSize(q, 2);
    assert Listed(q, 1) == [bullet] + [Trailer(1)];
    assert Listed(q, 2) == [bullet] + [bullet];
    assert ListCost([bullet]) == Cost(bullet);
    ListCostAppend([bullet], Trailer(1));
    ListCostAppend([bullet], bullet);
    EmptyBullet();
    TrailerIsLong(1);
  }

  lemma ShortHeaderWords(a: Source, b: Source, c: Source)
    requires |a| + |b| + |c| <= 100
    ensures Cost(a) + Cost(b) + Cost(c) <= 600
  {
    CostBounds(a);
    CostBounds(b);
    CostBounds(c);
  }

  lemma HeaderConstant() returns (fixed: nat)
    ensures fixed <= 600
    ensures forall branch :: Plain(branch) ==> Cost(Header(branch, [], [], 2)) == fixed + 2 * |branch|
  {
    var a, b, c := Units("Squash "), Units("\n\nSquash of "), Provenance([], [], 2);
    ShortProvenance();
    ShortHeaderWords(a, b, c);
    fixed := Cost(a) + Cost(b) + Cost(c);
    forall branch | Plain(branch) ensures Cost(Header(branch, [], [], 2)) == fixed + 2 * |branch| {
      HeaderPieces(a, branch, b, c);
    }
  }

  lemma ShortProvenance()
    ensures |Provenance([], [], 2)| <= 40
  {
  }

  function LongBranch(n: nat): (branch: Source)
    ensures |branch| == n && Plain(branch)
  {
    seq(n, _ => 97)
  }

  /** Two commits without subjects under a long branch name: the greedy loop stops short of a full listing that fits. */
  lemma GreedyCanStopShort() returns (q: Squash)
    ensures LastStepShrinks(q)
  {
    var fixed := HeaderConstant();
    var n := (MAX_MESSAGE_JSON_BYTES - 10 - fixed) / 2;
    q := Squash(LongBranch(n), [], [], 2, [[], []]);
    OddHeader(fixed, n);
    HeaderOf(q, fixed, n);
  }

  lemma HeaderOf(q: Squash, fixed: nat, n: nat)
    requires q.commitCount == 2 && q.subjects == [[], []]
    requires Cost(Header(q.branch, q.mergeBase, q.head, 2)) == fixed + 2 * n
    requires MAX_MESSAGE_JSON_BYTES - 1 <= fixed + 2 * n + 10 <= MAX_MESSAGE_JSON_BYTES
    ensures LastStepShrinks(q)
  {
    TwoEmptySubjects(q);
  }

  lemma OddHeader(fixed: nat, n: nat)
    requires fixed <= 600 && n == (MAX_MESSAGE_JSON_BYTES - 10 - fixed) / 2
    ensures MAX_MESSAGE_JSON_BYTES - 1 <= fixed + 2 * n + 10 <= MAX_MESSAGE_JSON_BYTES
  {
  }
}
