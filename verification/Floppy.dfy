/** The two diskette drives and `sec_rw` of rcbios-in-c/bios.c. The bytes of a transfer
    move in one step; how the controller answers each command is given from outside. */
module Floppy {
  import opened Bytes
  import opened DiskFormat

  type Medium = map<Place, seq<byte>>

  /** How one FDC command ended. */
  datatype Outcome = Normal | NotReady | OtherError

  /** Read and write commands given so far, and transfers that have failed. */
  datatype Counts = Counts(commands: nat, failures: nat)

  class Drives {
    /** The cylinder each drive's head is on. */
    var heads: seq<nat>
    /** What the diskettes hold, sector by sector. */
    var medium: Medium
    /** The controller's answers to all read and write commands, and the number of those given. */
    const answers: nat -> Outcome
    var commands: nat
    /** Seeks and recalibrations made. */
    var seeks: nat
    /** How many transfers have failed so far. */
    ghost var failures: nat

    constructor (heads: seq<nat>, medium: Medium, answers: nat -> Outcome)
      ensures this.heads == heads && this.medium == medium && this.answers == answers
      ensures commands == 0 && seeks == 0 && failures == 0
    {
      this.heads := heads;
      this.medium := medium;
      this.answers := answers;
      commands := 0;
      seeks := 0;
      failures := 0;
    }

    ghost function Tally(): Counts
      reads `commands, `failures
    {
      Counts(commands, failures)
    }

    // What the answers say about transfers, independently of how they are made.

    ghost predicate TenErrors(k: nat) {
      forall i: nat | k <= i < k + 10 :: answers(i).OtherError?
    }

    /** Among these answers is one that no retry helps against: not ready, or the last of ten errors in a row. */
    ghost predicate Broken(from: nat, to: nat) {
      || (exists i: nat | from <= i < to :: answers(i).NotReady?)
      || (exists k: nat | from <= k && k + 10 <= to :: TenErrors(k))
    }

    /** The last of these commands, if any, ended normally. */
    ghost predicate Settled(from: nat, to: nat) {
      from < to ==> answers(to - 1).Normal?
    }

    /** The attempts of one transfer: only errors before the last one, ten at most; it succeeds if the
        last one ends normally, and is given up before the tenth only for a drive that is not ready. */
    ghost predicate Tried(from: nat, to: nat, ok: bool) {
      && from < to <= from + 10 && (forall i: nat | from <= i < to - 1 :: answers(i).OtherError?)
      && (ok <==> answers(to - 1).Normal?) && (answers(to - 1).OtherError? ==> to == from + 10)
    }

    /** Transfers failed in between if and only if the answers were `Broken`. */
    ghost predicate Explained(from: Counts, to: Counts) {
      && from.commands <= to.commands && (from.failures == to.failures <==> !Broken(from.commands, to.commands))
      && (from.failures == to.failures ==> Settled(from.commands, to.commands))
    }

    ghost predicate Ran(from: Counts, to: Counts) {
      from == to || (from.failures <= to.failures && Explained(from, to))
    }

    lemma OneRan(from: Counts, to: Counts)
      requires Tried(from.commands, to.commands, from.failures == to.failures) && from.failures <= to.failures
      ensures Ran(from, to)
    {
      var a, b := from.commands, to.commands;
      if answers(b - 1).OtherError? {
        assert TenErrors(a);
      } else if answers(b - 1).Normal? {
        assert Settled(a, b);
        forall k: nat | a <= k && k + 10 <= b ensures !TenErrors(k) {
          assert k <= b - 1 < k + 10;
        }
      }
    }

    /** Runs in a row are one run. */
    lemma RanOn(from: Counts, mid: Counts, to: Counts)
      requires Ran(from, mid) && Ran(mid, to)
      ensures Ran(from, to)
    {
      var a, b, c := from.commands, mid.commands, to.commands;
      if from != mid && mid != to && from.failures == mid.failures == to.failures && b < c {
        forall k: nat | a <= k && k + 10 <= c ensures !TenErrors(k) {
          if k < b < k + 10 {
            assert answers(b - 1).Normal?;
          }
        }
      }
    }

    /** When a transfer succeeds: at one of its first ten attempts the command ends normally, behind errors only. */
    lemma TriedIff(from: nat, to: nat, ok: bool)
      requires Tried(from, to, ok)
      ensures ok <==> exists k: nat | from <= k < from + 10 ::
        answers(k).Normal? && forall j: nat | from <= j < k :: answers(j).OtherError?
    {
      if ok {
        assert answers(to - 1).Normal?;
      }
    }

    /** A controller that ends every command normally breaks no run. */
    lemma AllNormal(from: nat, to: nat)
      requires forall i: nat | from <= i < to :: answers(i).Normal?
      ensures !Broken(from, to)
    {
      forall k: nat | from <= k && k + 10 <= to ensures !TenErrors(k) {
        assert answers(k).Normal?;
      }
    }

    /** The addressed sector exists, is under its drive's head, and is `count` bytes long. */
    ghost predicate OnTrack(at: Place, count: nat)
      reads this
    {
      && at.drive < |heads| && heads[at.drive] == at.cylinder
      && at in medium && |medium[at]| == count
    }

    /** `fdc_seek`, assumed to succeed. */
    method Seek(drive: nat, cylinder: nat)
      requires drive < |heads|
      modifies `heads, `seeks
      ensures heads == old(heads)[drive := cylinder] && seeks == old(seeks) + 1
    {
      heads := heads[drive := cylinder];
      seeks := seeks + 1;
    }

    /** The transfer of one attempt; one that fails may leave anything in the sector or buffer it was writing. */
    method Transfer(outcome: Outcome, write: bool, at: Place, count: nat, buf: array<byte>)
      requires OnTrack(at, count) && count <= buf.Length
      modifies `medium, buf
      ensures OnTrack(at, count)
      ensures medium == old(medium)[at := medium[at]] && (!write ==> medium == old(medium))
      ensures buf[count..] == old(buf[count..]) && (write ==> buf[..] == old(buf[..]))
      ensures outcome.Normal? ==> buf[..count] == medium[at]
    {
      var moved: seq<byte>;
      if outcome.Normal? {
        moved := if write then buf[..count] else medium[at];
      } else {
        var junk: nat -> byte := *;
        moved := seq<byte>(count, i requires 0 <= i => junk(i));
      }
      if write {
        medium := medium[at := moved];
      } else {
        forall i | 0 <= i < count {
          buf[i] := moved[i];
        }
      }
    }

    /** `sec_rw`: up to ten attempts, recalibrating (and seeking back) after the fifth. */
    method SecRw(write: bool, at: Place, count: nat, buf: array<byte>) returns (ok: bool)
      requires OnTrack(at, count) && count <= buf.Length
      modifies this, buf
      ensures heads == old(heads) && OnTrack(at, count)
      ensures medium == old(medium)[at := medium[at]] && (!write ==> medium == old(medium))
      ensures buf[count..] == old(buf[count..]) && (write ==> buf[..] == old(buf[..]))
      ensures ok ==> buf[..count] == medium[at]
      ensures failures == old(failures) + (if ok then 0 else 1) && Tried(old(commands), commands, ok)
      ensures Ran(old(Tally()), Tally())
      ensures seeks == old(seeks) + if commands >= old(commands) + 5 && answers(old(commands) + 4).OtherError? then 2 else 0
    {
      var repet := 10;
      hide Ran, Explained;
      while repet != 0
        invariant 0 <= repet <= 10
        invariant heads == old(heads) && OnTrack(at, count)
        invariant medium == old(medium)[at := medium[at]] && (!write ==> medium == old(medium))
        invariant buf[count..] == old(buf[count..]) && (write ==> buf[..] == old(buf[..]))
        invariant failures == old(failures) && commands + repet == old(commands) + 10
        invariant forall i: nat | old(commands) <= i < commands :: answers(i).OtherError?
        invariant seeks == old(seeks) + if repet <= 5 then 2 else 0
      {
        var outcome := answers(commands);
        commands := commands + 1;
        Transfer(outcome, write, at, count, buf);
        if outcome.Normal? {
          OneRan(old(Tally()), Tally());
          return true;
        }
        if outcome.NotReady? {
          break;
        }
        if repet == 6 {
          Seek(at.drive, 0);
          Seek(at.drive, at.cylinder);
        }
        repet := repet - 1;
      }
      failures := failures + 1;
      OneRan(old(Tally()), Tally());
      ok := false;
    }
  }
}
