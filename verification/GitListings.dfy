/** Git's NUL-terminated listings: the index flags read as they stream, and the porcelain status. Bytes and characters
    are both given by their code. */
module GitListings {
  import opened Options
  import opened Text

  type Byte = b: int | 0 <= b < 256

  // ---- Assume-unchanged and skip-worktree flags ----

  predicate HidingTag(b: Byte) {
    0x61 <= b <= 0x7a || b == 0x53
  }

  ghost predicate HidesFrom(entries: seq<seq<Byte>>, from: nat) {
    exists i | from <= i < |entries| :: entries[i] != [] && HidingTag(entries[i][0])
  }

  /** Some NUL-terminated entry of the listing begins with a hiding tag. */
  ghost predicate HidesFiles(listing: seq<Byte>) {
    HidesFrom(Split(listing, 0), 0)
  }

  predicate EntryStart(listing: seq<Byte>, k: nat) {
    k == 0 || (k <= |listing| && listing[k - 1] == 0)
  }

  ghost predicate TaggedAt(listing: seq<Byte>, k: nat) {
    k < |listing| && EntryStart(listing, k) && HidingTag(listing[k])
  }

  ghost predicate TaggedFrom(listing: seq<Byte>, from: nat) {
    exists k: nat :: from <= k && TaggedAt(listing, k)
  }

  ghost predicate Tagged(listing: seq<Byte>) {
    TaggedFrom(listing, 0)
  }

  lemma ShiftedEntries(entry: seq<Byte>, rest: seq<seq<Byte>>, from: nat)
    ensures HidesFrom([entry] + rest, from + 1) <==> HidesFrom(rest, from)
  {
    var entries := [entry] + rest;
    assert forall i | 0 <= i < |rest| :: entries[i + 1] == rest[i];
    if HidesFrom(entries, from + 1) {
      var i :| from + 1 <= i < |entries| && entries[i] != [] && HidingTag(entries[i][0]);
      assert rest[i - 1] == entries[i];
    }
  }

  lemma ShiftedTags(listing: seq<Byte>)
    requires listing != []
    ensures listing[0] == 0 ==> (TaggedFrom(listing, 1) <==> TaggedFrom(listing[1..], 0))
    ensures listing[0] != 0 ==> (TaggedFrom(listing, 1) <==> TaggedFrom(listing[1..], 1))
  {
    var rest := listing[1..];
    forall k: nat | k > 0 || listing[0] == 0 ensures TaggedAt(rest, k) <==> TaggedAt(listing, k + 1) {
    }
    if TaggedFrom(listing, 1) {
      var k: nat :| 1 <= k && TaggedAt(listing, k);
      assert TaggedAt(rest, k - 1);
    }
  }

  lemma {:induction false} EntriesStartAtTags(listing: seq<Byte>)
    ensures Split(listing, 0)[0] != [] && HidingTag(Split(listing, 0)[0][0]) <==> TaggedAt(listing, 0)
    ensures HidesFrom(Split(listing, 0), 1) <==> TaggedFrom(listing, 1)
    ensures HidesFiles(listing) <==> Tagged(listing)
  {
    if listing != [] {
      var rest := listing[1..];
      EntriesStartAtTags(rest);
      ShiftedTags(listing);
      var tail := Split(rest, 0);
      if listing[0] == 0 {
        ShiftedEntries([], tail, 0);
      } else {
        ShiftedEntries([listing[0]] + tail[0], tail[1..], 0);
        ShiftedEntries(tail[0], tail[1..], 0);
        assert [tail[0]] + tail[1..] == tail;
      }
    }
  }

  /** The answer does not depend on how the listing is cut into chunks. */
  method HiddenIndexFlags(chunks: seq<seq<Byte>>) returns (hidden: bool)
    ensures hidden <==> exists entry :: entry in Split(Concat(chunks), 0) && entry != []
                                        && ('a' as int <= entry[0] <= 'z' as int || entry[0] == 'S' as int)
  {
    hidden := false;
    var entryStart := true;
    ghost var read: seq<Byte> := [];
    for c := 0 to |chunks|
      invariant read == Concat(chunks[..c])
      invariant entryStart <==> EntryStart(read, |read|)
      invariant hidden <==> Tagged(read)
    {
      var chunk := chunks[c];
      ghost var before := read;
      for j := 0 to |chunk|
        invariant read == before + chunk[..j]
        invariant entryStart <==> EntryStart(read, |read|)
        invariant hidden <==> Tagged(read)
      {
        var byte := chunk[j];
        TagsOfExtended(read, byte);
        if entryStart && HidingTag(byte) { hidden := true; }
        entryStart := byte == 0;
        read := read + [byte];
      }
      ConcatAppend(chunks[..c], [chunk]);
      assert chunks[..c + 1] == chunks[..c] + [chunk];
      assert Concat([chunk]) == chunk;
    }
    assert chunks[..|chunks|] == chunks;
    EntriesStartAtTags(read);
    HiddenEntries(read);
  }

  lemma HiddenEntries(listing: seq<Byte>)
    ensures HidesFiles(listing) <==> exists entry :: entry in Split(listing, 0) && entry != []
                                                     && ('a' as int <= entry[0] <= 'z' as int || entry[0] == 'S' as int)
  {
    var entries := Split(listing, 0);
    if HidesFiles(listing) {
      var i :| 0 <= i < |entries| && entries[i] != [] && HidingTag(entries[i][0]);
      assert entries[i] in entries;
    }
  }

  lemma TagsOfExtended(read: seq<Byte>, byte: Byte)
    ensures Tagged(read + [byte]) <==> Tagged(read) || (EntryStart(read, |read|) && HidingTag(byte))
  {
    var longer := read + [byte];
    forall k: nat ensures TaggedAt(longer, k) <==> TaggedAt(read, k) || (k == |read| && EntryStart(read, k) && HidingTag(byte)) {
    }
    if EntryStart(read, |read|) && HidingTag(byte) { assert TaggedAt(longer, |read|); }
    if Tagged(read) {
      var k: nat :| TaggedAt(read, k);
      assert TaggedAt(longer, k);
    }
  }

  // ---- Working tree status ----

  const SHOWN := 100

  datatype Change = Change(status: string, path: string, originalPath: Option<string>)

  predicate Renamed(status: string) {
    'R' in status || 'C' in status
  }

  /** A change as porcelain v1 can print it: a two-letter code, and a source exactly for renames and copies. */
  predicate Printable(c: Change) {
    |c.status| == 2 && '\0' !in c.status && '\0' !in c.path
    && (c.originalPath.Some? <==> Renamed(c.status))
    && (c.originalPath.Some? ==> '\0' !in c.originalPath.value)
  }

  function Records(changes: seq<Change>): seq<string> {
    if changes == [] then [] else
      [changes[0].status + " " + changes[0].path]
      + (if changes[0].originalPath.Some? then [changes[0].originalPath.value] else [])
      + Records(changes[1..])
  }

  /** `git status --porcelain=v1 -z`: destination first, then the source of a rename as its own record. */
  function Porcelain(changes: seq<Change>): string {
    Terminated(Records(changes), '\0')
  }

  lemma {:induction false} RecordsArePlain(changes: seq<Change>)
    requires forall i | 0 <= i < |changes| :: Printable(changes[i])
    ensures forall i | 0 <= i < |Records(changes)| :: '\0' !in Records(changes)[i]
  {
    if changes != [] {
      RecordsArePlain(changes[1..]);
    }
  }

  function Dropped(s: string, n: nat): string {
    if n <= |s| then s[n..] else ""
  }

  /** The changes in the records before the last one, which is what follows the final terminator. */
  function Parsed(entries: seq<string>): seq<Change>
    decreases |entries|
  {
    if |entries| <= 1 then [] else
      var code, path := Take(entries[0], 2), Dropped(entries[0], 3);
      if Renamed(code) then [Change(code, path, Some(entries[1]))] + Parsed(entries[2..])
      else [Change(code, path, None)] + Parsed(entries[1..])
  }

  lemma ParsedStep(entries: seq<string>, i: nat)
    requires i + 1 < |entries|
    ensures var code, path := Take(entries[i], 2), Dropped(entries[i], 3);
            Parsed(entries[i..]) == if Renamed(code) then [Change(code, path, Some(entries[i + 1]))] + Parsed(entries[i + 2..])
                                    else [Change(code, path, None)] + Parsed(entries[i + 1..])
  {
    var left := entries[i..];
    assert left[0] == entries[i] && left[1] == entries[i + 1];
    assert left[1..] == entries[i + 1..] && left[2..] == entries[i + 2..];
  }

  lemma ShownStep(all: seq<Change>, n: nat, change: Change, rest: seq<Change>)
    requires n <= |all| && all[n..] == [change] + rest
    ensures n < |all| && all[n + 1..] == rest
    ensures var shown := Take(all[..n], SHOWN);
            Take(all[..n + 1], SHOWN) == if |shown| < SHOWN then shown + [change] else shown
  {
    assert all[n] == all[n..][0] == change;
    assert all[n + 1..] == all[n..][1..];
    assert all[..n + 1] == all[..n] + [change];
  }

  method ReadStatus(status: string) returns (clean: bool, shown: seq<Change>, changeCount: nat)
    ensures clean <==> status == ""
    ensures changeCount == |Parsed(Split(status, '\0'))| && shown == Take(Parsed(Split(status, '\0')), 100)
  {
    var entries := Split(status, '\0');
    ghost var all := Parsed(entries);
    shown, changeCount := [], 0;
    var i := 0;
    while i < |entries| - 1
      invariant i <= |entries| && changeCount <= |all|
      invariant all[changeCount..] == Parsed(entries[i..])
      invariant shown == Take(all[..changeCount], SHOWN)
    {
      ParsedStep(entries, i);
      var entry := entries[i];
      var code := Take(entry, 2);
      var originalPath := None;
      if Renamed(code) {
        i := i + 1;
        originalPath := Some(entries[i]);
      }
      i := i + 1;
      var change := Change(code, Dropped(entry, 3), originalPath);
      ShownStep(all, changeCount, change, Parsed(entries[i..]));
      changeCount := changeCount + 1;
      if |shown| < SHOWN {
        shown := shown + [change];
      }
    }
    return status == "", shown, changeCount;
  }

  lemma {:induction false} RecordsParse(changes: seq<Change>)
    requires forall i | 0 <= i < |changes| :: Printable(changes[i])
    ensures Parsed(Records(changes) + [""]) == changes
  {
    if changes != [] {
      var c, rest := changes[0], changes[1..];
      RecordsParse(rest);
      var entry := c.status + " " + c.path;
      assert entry[..2] == c.status && entry[3..] == c.path;
      var entries := Records(changes) + [""];
      assert entries[0] == entry;
      if c.originalPath.Some? {
        assert entries[2..] == Records(rest) + [""];
      } else {
        assert entries[1..] == Records(rest) + [""];
      }
    }
  }

  /** Reading a printed status recovers every change, sources of renames included. */
  lemma StatusRoundTrip(changes: seq<Change>)
    requires forall i | 0 <= i < |changes| :: Printable(changes[i])
    ensures Parsed(Split(Porcelain(changes), '\0')) == changes
    ensures Porcelain(changes) == "" <==> changes == []
  {
    RecordsArePlain(changes);
    SplitOfTerminated(Records(changes), '\0');
    RecordsParse(changes);
  }
}
