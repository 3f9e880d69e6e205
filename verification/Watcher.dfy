/**
 The configuration watcher: every poll looks whether the file exists, reads its checksum if it does, and
 reports at most one event. The checksum is a parameter, `hash`.
 */
module Watcher {
  import opened Wrappers

  /** What one look at the file finds. */
  datatype Sight = Absent | Unreadable | Readable(content: string, mtime: nat)

  datatype Event = Created | Deleted | Modified(checksum: string)

  datatype State = State(checksum: Option<string>, modified: Option<nat>, present: bool)

  type Hash = string -> string

  function Begin(first: Sight, hash: Hash): State {
    match first
    case Absent => State(None, None, false)
    case Unreadable => State(None, None, true)
    case Readable(content, mtime) => State(Some(hash(content)), Some(mtime), true)
  }

  function Poll(s: State, sight: Sight, hash: Hash): (State, Option<Event>) {
    match sight
    case Absent => if s.present then (State(None, None, false), Some(Deleted)) else (s, None)
    case Unreadable => (s.(present := true), if s.present then None else Some(Created))
    case Readable(content, mtime) =>
      var read := State(Some(hash(content)), Some(mtime), true);
      if !s.present then (read, Some(Created))
      else if s.checksum != read.checksum then (read, Some(Modified(hash(content))))
      else (s, None)
  }

  class ConfigWatcher {
    var lastChecksum: Option<string>
    var lastModified: Option<nat>
    var wasPresent: bool

    function Seen(): State
      reads this
    {
      State(lastChecksum, lastModified, wasPresent)
    }

    constructor (first: Sight, hash: Hash)
      ensures Seen() == Begin(first, hash)
    {
      wasPresent := !first.Absent?;
      if first.Readable? {
        lastChecksum, lastModified := Some(hash(first.content)), Some(first.mtime);
      } else {
        lastChecksum, lastModified := None, None;
      }
    }

    method CheckNow(sight: Sight, hash: Hash) returns (event: Option<Event>)
      modifies this
      ensures (Seen(), event) == Poll(old(Seen()), sight, hash)
    {
      var isPresent := !sight.Absent?;
      if isPresent && !wasPresent {
        wasPresent := true;
        if sight.Readable? {
          lastChecksum, lastModified := Some(hash(sight.content)), Some(sight.mtime);
        }
        return Some(Created);
      }
      if !isPresent && wasPresent {
        wasPresent, lastChecksum, lastModified := false, None, None;
        return Some(Deleted);
      }
      if !isPresent {
        return None;
      }
      if sight.Readable? {
        var checksum := hash(sight.content);
        if lastChecksum != Some(checksum) {
          lastChecksum, lastModified := Some(checksum), Some(sight.mtime);
          return Some(Modified(checksum));
        }
      }
      return None;
    }
  }

  // Runs: `sights[0]` is what the constructor saw, the others are what the polls saw.

  function After(sights: seq<Sight>, hash: Hash): State
    requires |sights| > 0
  {
    var last := sights[|sights| - 1];
    if |sights| == 1 then Begin(last, hash) else Poll(After(sights[..|sights| - 1], hash), last, hash).0
  }

  /** The event of the last poll. */
  function LastEvent(sights: seq<Sight>, hash: Hash): Option<Event>
    requires |sights| > 1
  {
    Poll(After(sights[..|sights| - 1], hash), sights[|sights| - 1], hash).1
  }

  function Events(sights: seq<Sight>, hash: Hash): seq<Event>
    requires |sights| > 0
  {
    if |sights| == 1 then [] else
      Events(sights[..|sights| - 1], hash) +
      match LastEvent(sights, hash) case None => [] case Some(e) => [e]
  }

  /** A reader of the events who knows whether the file is there; None once an event makes no sense: the
      creation of a file that is there, or the deletion or modification of one that is not. */
  function Follow(present: bool, events: seq<Event>): Option<bool> {
    if events == [] then Some(present) else
      match (Follow(present, events[..|events| - 1]), events[|events| - 1])
      case (Some(false), Created) => Some(true)
      case (Some(true), Deleted) => Some(false)
      case (Some(true), Modified(_)) => Some(true)
      case _ => None
  }

  /** From look `k` on, nothing was read and the file was never absent. */
  ghost predicate UnreadableAfter(sights: seq<Sight>, k: int) {
    forall j :: k < j < |sights| && 0 <= j ==> sights[j] == Unreadable
  }

  /** What the watcher should know: the checksum read last, unless the file has been absent since. */
  ghost predicate Knows(sights: seq<Sight>, hash: Hash, checksum: Option<string>) {
    match checksum
    case Some(c) =>
      exists k :: 0 <= k < |sights| && sights[k].Readable? && hash(sights[k].content) == c && UnreadableAfter(sights, k)
    case None =>
      exists k :: -1 <= k < |sights| && (k == -1 || sights[k] == Absent) && UnreadableAfter(sights, k)
  }

  /** The state after one look agrees with it. */
  lemma {:induction false} StateAgreesWithSight(sights: seq<Sight>, hash: Hash)
    requires |sights| > 0
    ensures var s := After(sights, hash); var last := sights[|sights| - 1];
      && s.present == !last.Absent?
      && (last.Absent? ==> s.checksum == None)
      && (last.Readable? ==> s.checksum == Some(hash(last.content)))
      && (s.checksum == None <==> s.modified == None)
  {
    if |sights| > 1 { StateAgreesWithSight(sights[..|sights| - 1], hash); }
  }

  /** The stored state after any file history: the checksum read last unless the file has been absent
      since. In particular an absent file has no stored checksum, and a poll that reads the file leaves its
      checksum stored. */
  lemma {:induction false} StoredIsLatestRead(sights: seq<Sight>, hash: Hash)
    requires |sights| > 0
    ensures var s := After(sights, hash); var last := sights[|sights| - 1];
      && Knows(sights, hash, s.checksum)
      && s.present == !last.Absent?
      && (last.Absent? ==> s.checksum == None)
      && (last.Readable? ==> s.checksum == Some(hash(last.content)))
  {
    StateAgreesWithSight(sights, hash);
    var n := |sights| - 1;
    if sights[n] != Unreadable {
      assert UnreadableAfter(sights, n);
    } else if n == 0 {
      assert UnreadableAfter(sights, -1);
    } else {
      hide Knows;
      StoredIsLatestRead(sights[..n], hash);
      KnowsStill(sights[..n], hash, After(sights[..n], hash).checksum);
      assert sights == sights[..n] + [Unreadable];
    }
  }

  lemma KnowsStill(sights: seq<Sight>, hash: Hash, checksum: Option<string>)
    requires Knows(sights, hash, checksum)
    ensures Knows(sights + [Unreadable], hash, checksum)
  {
    var more := sights + [Unreadable];
    match checksum
    case Some(c) =>
      var k :| 0 <= k < |sights| && sights[k].Readable? && hash(sights[k].content) == c && UnreadableAfter(sights, k);
      assert more[k] == sights[k] && UnreadableAfter(more, k);
    case None =>
      var k :| -1 <= k < |sights| && (k == -1 || sights[k] == Absent) && UnreadableAfter(sights, k);
      assert k >= 0 ==> more[k] == sights[k];
      assert UnreadableAfter(more, k);
  }

  /** Over any file history: Created and Deleted strictly alternate, starting with Deleted exactly when the
      file was there at first, Modified comes only while the file is there, and a reader of the events
      knows whether it is. */
  lemma {:induction false} EventsFollowTheFile(sights: seq<Sight>, hash: Hash)
    requires |sights| > 0
    ensures Follow(!sights[0].Absent?, Events(sights, hash)) == Some(!sights[|sights| - 1].Absent?)
  {
    var n := |sights| - 1;
    if n > 0 {
      EventsFollowTheFile(sights[..n], hash);
      StateAgreesWithSight(sights[..n], hash);
      FollowOneMore(!sights[0].Absent?, Events(sights[..n], hash), After(sights[..n], hash), sights[n], hash);
    }
  }

  lemma FollowOneMore(first: bool, events: seq<Event>, s: State, sight: Sight, hash: Hash)
    requires Follow(first, events) == Some(s.present)
    ensures var event := Poll(s, sight, hash).1;
      Follow(first, events + match event case None => [] case Some(e) => [e]) == Some(!sight.Absent?)
  {
    match Poll(s, sight, hash).1
    case None => assert events + [] == events;
    case Some(e) => assert (events + [e])[..|events|] == events;
  }

  /** Exactly when a poll reports a modification: the file was there at the previous look, can be read now,
      and its checksum is not the one that was known. */
  lemma ModifiedExactly(sights: seq<Sight>, hash: Hash, c: string)
    requires |sights| > 1
    ensures var before := sights[..|sights| - 1]; var last := sights[|sights| - 1];
      LastEvent(sights, hash) == Some(Modified(c)) <==>
        && !before[|before| - 1].Absent?
        && last.Readable? && hash(last.content) == c
        && !Knows(before, hash, Some(c))
  {
    var before := sights[..|sights| - 1];
    StoredIsLatestRead(before, hash);
    assert Knows(before, hash, Some(c)) <==> After(before, hash).checksum == Some(c);
  }

  /** The poll at look `k` reports nothing. */
  predicate Quiet(sights: seq<Sight>, hash: Hash, k: nat)
    requires 0 < k < |sights|
  {
    LastEvent(sights[..k + 1], hash) == None
  }

  /** Nothing is missed: when the polls after look `i` up to look `j` report nothing, everything that was
      read from look `i` to look `j` has one checksum. */
  lemma {:induction false} SilenceMeansUnchanged(sights: seq<Sight>, hash: Hash, i: nat, j: nat)
    requires i < j < |sights| && sights[i].Readable?
    requires forall k :: i < k <= j ==> Quiet(sights, hash, k)
    ensures After(sights[..j + 1], hash).checksum == Some(hash(sights[i].content))
    ensures After(sights[..j + 1], hash).present
    ensures sights[j].Readable? ==> hash(sights[j].content) == hash(sights[i].content)
    decreases j
  {
    assert Quiet(sights, hash, j);
    assert sights[..j + 1][..j] == sights[..j];
    if j == i + 1 {
      StoredIsLatestRead(sights[..j], hash);
    } else {
      SilenceMeansUnchanged(sights, hash, i, j - 1);
    }
  }

  /** Look `k` read the file and found a checksum that was not the stored one. */
  ghost predicate ChangedAt(sights: seq<Sight>, hash: Hash, k: nat) {
    && k < |sights| && sights[k].Readable?
    && (k == 0 || After(sights[..k], hash).checksum != Some(hash(sights[k].content)))
  }

  /** Look `k` was the last that changed the checksum, and the file has been there since. */
  ghost predicate LastChange(sights: seq<Sight>, hash: Hash, k: nat) {
    && ChangedAt(sights, hash, k)
    && forall j: nat :: k < j < |sights| ==> sights[j] != Absent && !ChangedAt(sights, hash, j)
  }

  /** The stored modification time is that of the last look that changed the checksum, not that of the last
      read: a file that is written again with the same content keeps its old time. */
  lemma {:induction false} TimeOfLastChange(sights: seq<Sight>, hash: Hash)
    requires |sights| > 0
    ensures var s := After(sights, hash);
      if s.modified.None? then s.checksum == None
      else exists k: nat :: LastChange(sights, hash, k) && s.modified == Some(sights[k].mtime)
  {
    var n := |sights| - 1;
    StateAgreesWithSight(sights, hash);
    if After(sights, hash).modified.None? {
    } else if ChangedAt(sights, hash, n) {
      FirstOrChanged(sights, hash);
      assert LastChange(sights, hash, n);
    } else {
      UnchangedKeeps(sights, hash);
      TimeOfLastChange(sights[..n], hash);
      var k: nat :| LastChange(sights[..n], hash, k) && After(sights, hash).modified == Some(sights[..n][k].mtime);
      LastChangeStays(sights, hash, k);
    }
  }

  lemma FirstOrChanged(sights: seq<Sight>, hash: Hash)
    requires |sights| > 0 && ChangedAt(sights, hash, |sights| - 1)
    ensures After(sights, hash).modified == Some(sights[|sights| - 1].mtime)
  {
    var n := |sights| - 1;
    if n > 0 {
      StateAgreesWithSight(sights[..n], hash);
    }
  }

  lemma UnchangedKeeps(sights: seq<Sight>, hash: Hash)
    requires |sights| > 0 && After(sights, hash).modified.Some? && !ChangedAt(sights, hash, |sights| - 1)
    ensures |sights| > 1 && sights[|sights| - 1] != Absent
    ensures After(sights, hash).modified == After(sights[..|sights| - 1], hash).modified
  {
    StateAgreesWithSight(sights, hash);
    if |sights| > 1 {
      StateAgreesWithSight(sights[..|sights| - 1], hash);
    }
  }

  lemma LastChangeStays(sights: seq<Sight>, hash: Hash, k: nat)
    requires |sights| > 1 && LastChange(sights[..|sights| - 1], hash, k)
    requires sights[|sights| - 1] != Absent && !ChangedAt(sights, hash, |sights| - 1)
    ensures LastChange(sights, hash, k)
  {
    var init := sights[..|sights| - 1];
    forall j: nat | j < |init| ensures ChangedAt(init, hash, j) <==> ChangedAt(sights, hash, j) {
      assert init[..j] == sights[..j];
    }
  }
}
