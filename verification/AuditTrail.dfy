/**
  The append-only audit log and its rotation, with a failure possible at every file operation.

  File 0 is the live file and file k its k-th rotated generation.
 */
module AuditTrail {

  type Files = map<nat, seq<string>>

  datatype Append = Written | NotOpened | NotWritten

  // Which operations of one emit fail; `rename(g)` is the rename of file g.
  datatype Faults = Faults(mkdir: bool, stat: bool, unlink: bool, rename: nat -> bool, append: Append)

  // A line is ASCII and is stored with its newline.
  function Size(lines: seq<string>): nat {
    if lines == [] then 0 else |lines[0]| + 1 + Size(lines[1..])
  }

  function Content(files: Files, k: nat): seq<string> {
    if k in files then files[k] else []
  }

  // Everything on disk, from the oldest generation `n` to the live file.
  function History(files: Files, n: nat): seq<string> {
    Content(files, n) + if n == 0 then [] else History(files, n - 1)
  }

  // A file move; the destination is overwritten if it exists.
  function Moved(files: Files, a: nat, b: nat): Files
    requires a in files
  {
    (files - {a})[b := files[a]]
  }

  // ---------------------------------------------------------------- rotation as a function

  datatype Step = Step(files: Files, ok: bool)

  // The renames of generations g, g - 1, ..., 1, stopping at the first failure.
  function Shift(files: Files, g: nat, faults: Faults): Step
    decreases g
  {
    if g == 0 then Step(files, true)
    else if g !in files then Shift(files, g - 1, faults)
    else if faults.rename(g) then Step(files, false)
    else Shift(Moved(files, g, g + 1), g - 1, faults)
  }

  function Rotated(files: Files, keep: nat, faults: Faults): Step
    requires keep > 0
  {
    if faults.unlink then Step(files, false)
    else
      var s := Shift(files - {keep}, keep - 1, faults);
      if !s.ok || 0 !in s.files || faults.rename(0) then Step(s.files, false) else Step(Moved(s.files, 0, 1), true)
  }

  function Oversized(files: Files, threshold: int, faults: Faults): bool {
    0 in files && !faults.stat && Size(files[0]) >= threshold
  }

  function Emitted(files: Files, keep: nat, line: string, threshold: int, faults: Faults): Step
    requires keep > 0
  {
    if faults.mkdir then Step(files, false)
    else
      var s := if Oversized(files, threshold, faults) then Rotated(files, keep, faults) else Step(files, true);
      if !s.ok || faults.append.NotOpened? then Step(s.files, false)
      else if faults.append.NotWritten? then Step(s.files[0 := Content(s.files, 0)], false)
      else Step(s.files[0 := Content(s.files, 0) + [line]], true)
  }

  // ---------------------------------------------------------------- what rotation keeps

  predicate Suffix(h: seq<string>, w: seq<string>) {
    |h| <= |w| && h == w[|w| - |h|..]
  }

  predicate WithinKeep(files: Files, keep: nat) {
    forall k :: k in files ==> k <= keep
  }

  // Moving a file into an empty slot just above it changes nothing in the history.
  lemma {:induction false} MoveKeepsHistory(files: Files, g: nat, n: nat)
    requires g in files && g + 1 !in files && g + 1 <= n
    ensures History(Moved(files, g, g + 1), n) == History(files, n)
    decreases n
  {
    var after := Moved(files, g, g + 1);
    if n == g + 1 {
      SameBelow(files, after, g);
    } else {
      MoveKeepsHistory(files, g, n - 1);
    }
  }

  // Two disks that agree below slot g, where only the first holds slot g.
  lemma {:induction false} SameBelow(files: Files, after: Files, g: nat)
    requires g in files && g !in after && forall k: nat :: k < g ==> Content(files, k) == Content(after, k)
    requires g + 1 !in files && Content(after, g + 1) == files[g]
    ensures History(after, g + 1) == History(files, g + 1)
  {
    if g > 0 { AgreeingHistories(files, after, g - 1); }
    assert [] + History(files, g) == History(files, g);
    assert g > 0 ==> files[g] + ([] + History(after, g - 1)) == files[g] + History(files, g - 1);
  }

  lemma {:induction false} AgreeingHistories(a: Files, b: Files, n: nat)
    requires forall k: nat :: k <= n ==> Content(a, k) == Content(b, k)
    ensures History(a, n) == History(b, n)
  {
    if n > 0 { AgreeingHistories(a, b, n - 1); }
  }

  // The renames go into empty slots only, so nothing is overwritten and nothing is lost, whichever
  // of them fails; if none does, slot 1 is free.
  lemma {:induction false} ShiftKeepsHistory(files: Files, g: nat, faults: Faults, keep: nat)
    requires g < keep && g + 1 !in files && WithinKeep(files, keep)
    ensures var s := Shift(files, g, faults);
      && History(s.files, keep) == History(files, keep) && WithinKeep(s.files, keep)
      && (s.ok ==> 1 !in s.files)
      && Content(s.files, 0) == Content(files, 0) && (0 in s.files <==> 0 in files)
    decreases g
  {
    if g > 0 && g in files && !faults.rename(g) {
      MoveKeepsHistory(files, g, keep);
      ShiftKeepsHistory(Moved(files, g, g + 1), g - 1, faults, keep);
    } else if g > 0 && g !in files {
      ShiftKeepsHistory(files, g - 1, faults, keep);
    }
  }

  // What a rotation loses is the oldest generation or nothing.
  lemma RotationLosesOldest(files: Files, keep: nat, faults: Faults)
    requires keep > 0 && WithinKeep(files, keep)
    ensures var s := Rotated(files, keep, faults);
      && WithinKeep(s.files, keep)
      && History(s.files, keep)
        == (if faults.unlink then History(files, keep) else History(files, keep)[|Content(files, keep)|..])
      && (s.ok ==> 0 !in s.files)
  {
    if !faults.unlink {
      var dropped := files - {keep};
      UnlinkDropsOldest(files, keep);
      ShiftKeepsHistory(dropped, keep - 1, faults, keep);
      LiveFileMoves(Shift(dropped, keep - 1, faults), keep, faults);
    }
  }

  // The last rename, if it is reached and does not fail.
  lemma LiveFileMoves(s: Step, keep: nat, faults: Faults)
    requires keep > 0 && WithinKeep(s.files, keep) && (s.ok ==> 1 !in s.files)
    ensures var after := if !s.ok || 0 !in s.files
      || faults.rename(0) then Step(s.files, false) else Step(Moved(s.files, 0, 1), true);
      && WithinKeep(after.files, keep) && History(after.files, keep) == History(s.files, keep)
      && (after.ok ==> 0 !in after.files)
  {
    if s.ok && 0 in s.files && !faults.rename(0) { MoveKeepsHistory(s.files, 0, keep); }
  }

  lemma UnlinkDropsOldest(files: Files, keep: nat)
    requires keep > 0
    ensures History(files - {keep}, keep) == History(files, keep)[|Content(files, keep)|..]
  {
    AgreeingHistories(files, files - {keep}, keep - 1);
    assert [] + History(files, keep - 1) == History(files, keep - 1);
  }

  lemma {:induction false} AppendExtendsHistory(files: Files, line: string, n: nat)
    ensures History(files[0 := Content(files, 0) + [line]], n) == History(files, n) + [line]
    ensures History(files[0 := Content(files, 0)], n) == History(files, n)
  {
    var a, b := files[0 := Content(files, 0) + [line]], files[0 := Content(files, 0)];
    if n > 0 {
      AppendExtendsHistory(files, line, n - 1);
      assert Content(files, n) + (History(files, n - 1) + [line]) == Content(files, n) + History(files, n - 1) + [line];
    }
  }

  lemma SuffixDrop(h: seq<string>, w: seq<string>, n: nat)
    requires Suffix(h, w) && n <= |h|
    ensures Suffix(h[n..], w)
  {
  }

  lemma SuffixAppend(h: seq<string>, w: seq<string>, line: string)
    requires Suffix(h, w)
    ensures Suffix(h + [line], w + [line])
  {
  }

  // One emit: what is on disk stays a suffix of everything ever written.
  lemma EmitKeepsSuffix(files: Files, keep: nat, line: string, threshold: int, faults: Faults, written: seq<string>)
    requires keep > 0 && WithinKeep(files, keep) && Suffix(History(files, keep), written)
    ensures var s := Emitted(files, keep, line, threshold, faults);
      WithinKeep(s.files, keep) && Suffix(History(s.files, keep), if s.ok then written + [line] else written)
  {
    if !faults.mkdir {
      var s := if Oversized(files, threshold, faults) then Rotated(files, keep, faults) else Step(files, true);
      RotationKeepsSuffix(files, keep, faults, written);
      AppendExtendsHistory(s.files, line, keep);
      SuffixAppend(History(s.files, keep), written, line);
    }
  }

  lemma RotationKeepsSuffix(files: Files, keep: nat, faults: Faults, written: seq<string>)
    requires keep > 0 && WithinKeep(files, keep) && Suffix(History(files, keep), written)
    ensures var s := Rotated(files, keep, faults); WithinKeep(s.files, keep) && Suffix(History(s.files, keep), written)
  {
    RotationLosesOldest(files, keep, faults);
    assert |Content(files, keep)| <= |History(files, keep)|;
    SuffixDrop(History(files, keep), written, |Content(files, keep)|);
  }

  // The size is tested before appending: a written event starts a file or joins one below the threshold.
  lemma WrittenBelowThreshold(files: Files, keep: nat, line: string, threshold: int, faults: Faults)
    requires keep > 0 && WithinKeep(files, keep) && Emitted(files, keep, line, threshold, faults).ok && !faults.stat
    ensures var live := Emitted(files, keep, line, threshold, faults).files[0];
      live == [line] || (0 in files && Size(files[0]) < threshold && live == files[0] + [line])
  {
    RotationLosesOldest(files, keep, faults);
  }

  // ---------------------------------------------------------------- when nothing fails

  ghost predicate FaultFree(faults: Faults) {
    !faults.mkdir && !faults.stat && !faults.unlink && (forall g :: !faults.rename(g)) && faults.append.Written?
  }

  // The file that was generation k is generation k + 1 afterwards, and what was at the end is gone.
  lemma {:induction false} ShiftMovesUp(files: Files, g: nat, faults: Faults, keep: nat, k: nat)
    requires FaultFree(faults) && g < keep && g + 1 !in files && WithinKeep(files, keep)
    ensures var s := Shift(files, g, faults);
      && s.ok && (g > 0 ==> 1 !in s.files)
      && (1 <= k <= g ==> Content(s.files, k + 1) == Content(files, k))
      && (k == 0 || k > g + 1 ==> Content(s.files, k) == Content(files, k) && (k in s.files <==> k in files))
    decreases g
  {
    if g > 0 {
      var next := if g in files then Moved(files, g, g + 1) else files;
      ShiftMovesUp(next, g - 1, faults, keep, k);
      if k == g { ShiftMovesUp(next, g - 1, faults, keep, g + 1); }
      if k == 0 { ShiftMovesUp(next, g - 1, faults, keep, 0); }
    }
  }

  // A rotation moves every generation one up, the live file included, and drops the last.
  lemma RotationMovesUp(files: Files, keep: nat, faults: Faults, k: nat)
    requires keep > 0 && WithinKeep(files, keep) && FaultFree(faults) && 0 in files && k < keep
    ensures var s := Rotated(files, keep, faults);
      s.ok && 0 !in s.files && Content(s.files, k + 1) == Content(files, k)
  {
    var dropped := files - {keep};
    ShiftMovesUp(dropped, keep - 1, faults, keep, k);
    ShiftMovesUp(dropped, keep - 1, faults, keep, 0);
  }

  // Without faults every event is written: appended to a live file that is missing or below the
  // threshold, and otherwise, after a rotation, to a new one.
  lemma FaultFreeEmit(files: Files, keep: nat, line: string, threshold: int, faults: Faults)
    requires keep > 0 && WithinKeep(files, keep) && FaultFree(faults)
    ensures var s := Emitted(files, keep, line, threshold, faults);
      && s.ok
      && (0 !in files || Size(files[0]) < threshold ==> s.files == files[0 := Content(files, 0) + [line]])
      && (0 in files && Size(files[0]) >= threshold ==>
            s.files[0] == [line] && forall k: nat :: k < keep ==> Content(s.files, k + 1) == Content(files, k))
  {
    if 0 in files && Size(files[0]) >= threshold {
      forall k: nat | k < keep
        ensures var r := Rotated(files, keep, faults);
          r.ok && 0 !in r.files && Content(r.files, k + 1) == Content(files, k)
      {
        RotationMovesUp(files, keep, faults, k);
      }
      RotationMovesUp(files, keep, faults, 0);
    }
  }

  // ---------------------------------------------------------------- every run

  datatype Emit = Emit(line: string, threshold: int, faults: Faults)

  datatype Trail = Trail(files: Files, written: seq<string>)

  function EmitAll(t: Trail, keep: nat, emits: seq<Emit>): Trail
    requires keep > 0
    decreases |emits|
  {
    if emits == [] then t
    else
      var e := emits[0];
      var s := Emitted(t.files, keep, e.line, e.threshold, e.faults);
      EmitAll(Trail(s.files, if s.ok then t.written + [e.line] else t.written), keep, emits[1..])
  }

  // Contiguous history: after any sequence of emits, with any threshold at each and any failures,
  // the generations from oldest to live are a suffix of the events successfully written.
  lemma {:induction false} HistoryIsContiguous(t: Trail, keep: nat, emits: seq<Emit>)
    requires keep > 0 && WithinKeep(t.files, keep) && Suffix(History(t.files, keep), t.written)
    ensures var t' := EmitAll(t, keep, emits);
      WithinKeep(t'.files, keep) && Suffix(History(t'.files, keep), t'.written)
    decreases |emits|
  {
    if emits != [] {
      var e := emits[0];
      EmitKeepsSuffix(t.files, keep, e.line, e.threshold, e.faults, t.written);
      var s := Emitted(t.files, keep, e.line, e.threshold, e.faults);
      HistoryIsContiguous(Trail(s.files, if s.ok then t.written + [e.line] else t.written), keep, emits[1..]);
    }
  }

  // ---------------------------------------------------------------- the log

  class AuditLog {
    const keep: nat
    var files: Files
    var warned: bool

    ghost var written: seq<string>
    // Whether a rename has ever replaced an existing file.
    ghost var overwrote: bool

    ghost predicate Valid()
      reads this
    {
      && keep > 0 && WithinKeep(files, keep)
      && Suffix(History(files, keep), written)
      && !overwrote
    }

    constructor (keep: nat)
      requires keep > 0
      ensures Valid() && this.keep == keep && files == map[] && written == [] && !warned
    {
      this.keep, files, warned, written, overwrote := keep, map[], false, [], false;
      new;
      EmptyHistory(keep);
    }

    static lemma {:induction false} EmptyHistory(n: nat)
      ensures History(map[], n) == []
    {
      if n > 0 { EmptyHistory(n - 1); }
    }

    method Replace(a: nat, b: nat, fails: bool) returns (ok: bool)
      modifies this`files, this`overwrote
      ensures ok == (a in old(files) && !fails)
      ensures files == if ok then Moved(old(files), a, b) else old(files)
      ensures overwrote == (old(overwrote) || (ok && b in old(files)))
    {
      ok := a in files && !fails;
      if ok {
        overwrote := overwrote || b in files;
        files := Moved(files, a, b);
      }
    }

    // Make room at the end, then shift from the end, then move the live file.
    method Rotate(faults: Faults) returns (ok: bool)
      requires keep > 0 && WithinKeep(files, keep) && !overwrote
      modifies this`files, this`overwrote
      ensures Step(files, ok) == Rotated(old(files), keep, faults)
      ensures !overwrote
    {
      if faults.unlink { return false; }
      files := files - {keep};
      var g := keep - 1;
      ghost var dropped := files;
      while g > 0
        invariant 0 <= g < keep && WithinKeep(files, keep) && g + 1 !in files && !overwrote
        invariant Shift(files, g, faults) == Shift(dropped, keep - 1, faults)
      {
        if g in files {
          var moved := Replace(g, g + 1, faults.rename(g));
          if !moved { return false; }
        }
        g := g - 1;
      }
      ok := Replace(0, 1, faults.rename(0));
    }

    method Warn()
      modifies this`warned
      ensures warned
    {
      warned := true;
    }

    // Best effort: the call always returns; `ok` says whether the event reached the disk.
    method EmitEvent(line: string, threshold: int, faults: Faults) returns (ok: bool)
      requires Valid()
      modifies this
      ensures Valid()
      ensures Step(files, ok) == Emitted(old(files), keep, line, threshold, faults)
      ensures written == if ok then old(written) + [line] else old(written)
      ensures warned == (old(warned) || !ok)
    {
      EmitKeepsSuffix(files, keep, line, threshold, faults, written);
      if faults.mkdir { Warn(); return false; }
      if Oversized(files, threshold, faults) {
        var rotated := Rotate(faults);
        if !rotated { Warn(); return false; }
      }
      match faults.append
      case NotOpened => Warn(); ok := false;
      case NotWritten =>
        files := files[0 := Content(files, 0)];
        Warn();
        ok := false;
      case Written =>
        files := files[0 := Content(files, 0) + [line]];
        written := written + [line];
        ok := true;
    }
  }
}
