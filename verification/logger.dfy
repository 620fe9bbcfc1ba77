/**
 * The daemon's logger: writes leveled lines to a log file or, failing that, to
 * the fallback stream (standard error), and rotates the file once the
 * calendar date has moved past the day it was last (re)opened. Opening and
 * renaming files are success/failure oracles; the clock is an instant `now`
 * in seconds, broken down into a date by `dateOf`.
 */
module Logging {

  import opened Wrappers
  import opened LogFormat

  /** Where lines go: the fallback stream, or the log file opened under a name. */
  datatype Sink = Fallback | LogFile(name: string)

  /** The logger's rotation state: output, file name, rotatable flag, instant of the last (re)open. */
  datatype LogState = LogState(sink: Sink, fileName: Option<string>, rotateable: bool, lastRotated: Option<int>)

  /** Either writing to the fallback stream with nothing to rotate, or writing to the named file, stamped. */
  predicate Consistent(st: LogState)
  {
    || st == LogState(Fallback, None, false, None)
    || (st.rotateable && st.fileName.Some? && st.lastRotated.Some? && st.sink == LogFile(st.fileName.value))
  }

  /** The state SetStdErr leaves: fallback stream, no file name, not rotatable, no stamp. */
  const StdErrState: LogState := LogState(Fallback, None, false, None)

  /** The state SetFile leaves: the opened file, stamped now, or the fallback state when opening failed. */
  function SetFileState(fname: string, openOk: bool, now: int): (st: LogState)
    ensures Consistent(st)
    ensures st.rotateable == openOk
  {
    if openOk then LogState(LogFile(fname), Some(fname), true, Some(now)) else StdErrState
  }

  /** Rotation is due when the logger is rotatable and today's date is strictly after the last stamp's. */
  predicate RotateDue(st: LogState, now: int, dateOf: int -> Date)
    requires Consistent(st)
  {
    st.rotateable && DateKey(dateOf(now)) > DateKey(dateOf(st.lastRotated.value))
  }

  /** What CheckRotate did: the new state, its return code, and the name the file was renamed to, if it tried. */
  datatype Rotation = Rotation(state: LogState, code: int, renamedTo: Option<string>)

  /**
   * CheckRotate: nothing when not rotatable or not due (code 0). When due, the
   * file is renamed to `<name>.YYYYMMDD` dated one second before now and
   * reopened under its name; the code is -1 if the rename or the reopen
   * failed, else 1.
   */
  function CheckRotateSpec(st: LogState, now: int, renameOk: bool, reopenOk: bool, dateOf: int -> Date): (r: Rotation)
    requires Consistent(st)
    ensures Consistent(r.state)
    ensures r.code in {-1, 0, 1}
    ensures r.code != 0 <==> RotateDue(st, now, dateOf)
    ensures r.code == 0 ==> r.state == st && r.renamedTo.None?
  {
    if !st.rotateable then Rotation(st, 0, None)
    else if DateKey(dateOf(now)) > DateKey(dateOf(st.lastRotated.value)) then
      var name := st.fileName.value;
      var target := RotatedName(name, dateOf(now - 1));
      var st' := SetFileState(name, reopenOk, now);
      Rotation(st', if !renameOk || !reopenOk then -1 else 1, Some(target))
    else Rotation(st, 0, None)
  }

  /** The notice Message writes before the caller's line, for a CheckRotate code. */
  function Notice(code: int, stamp: string): (lines: seq<string>)
    ensures |lines| <= 1
  {
    if code == -1 then [FormatLine(stamp, Error, "Can't rotate logfile!")]
    else if code == 1 then [FormatLine(stamp, Ok, "Logfile rotated")]
    else []
  }

  /** The lines one Message call writes, all to the sink CheckRotate leaves. */
  function MessageLines(st: LogState, l: Level, msg: string, now: int, stamp: string,
                        renameOk: bool, reopenOk: bool, dateOf: int -> Date): seq<string>
    requires Consistent(st)
  {
    var rot := CheckRotateSpec(st, now, renameOk, reopenOk, dateOf);
    Notice(rot.code, stamp) + [FormatLine(stamp, l, msg)]
  }

  // ---------------------------------------------------------------------
  // Properties of rotation

  /** Not rotatable: CheckRotate changes nothing and reports no rotation. */
  lemma NotRotatableNoOp(st: LogState, now: int, renameOk: bool, reopenOk: bool, dateOf: int -> Date)
    requires Consistent(st) && !st.rotateable
    ensures CheckRotateSpec(st, now, renameOk, reopenOk, dateOf) == Rotation(st, 0, None)
  {
  }

  /**
   * A due rotation renames the file to its name dated one second before now,
   * reopens it stamped now, and succeeds (1) exactly when both steps did; a
   * failed reopen leaves the logger on the fallback stream.
   */
  lemma RotationEffect(st: LogState, now: int, renameOk: bool, reopenOk: bool, dateOf: int -> Date)
    requires Consistent(st) && RotateDue(st, now, dateOf)
    ensures var r := CheckRotateSpec(st, now, renameOk, reopenOk, dateOf);
      && r.renamedTo == Some(RotatedName(st.fileName.value, dateOf(now - 1)))
      && (r.code == 1 <==> renameOk && reopenOk)
      && (reopenOk ==> r.state == LogState(st.sink, st.fileName, true, Some(now)))
      && (!reopenOk ==> r.state == StdErrState)
  {
  }

  /**
   * The rotated name carries the date of the second before now: unless the
   * rotation happens in the first second of a day, that is the current date,
   * not the date of the day the file's lines were written on.
   */
  lemma RotatedNameDatedNow(st: LogState, now: int, renameOk: bool, reopenOk: bool, dateOf: int -> Date)
    requires Consistent(st) && RotateDue(st, now, dateOf) && dateOf(now - 1) == dateOf(now)
    ensures CheckRotateSpec(st, now, renameOk, reopenOk, dateOf).renamedTo == Some(RotatedName(st.fileName.value, dateOf(now)))
  {
  }

  /** After a rotation that reopened the file, no further rotation happens on the same day (or earlier). */
  lemma NoSecondRotationSameDay(st: LogState, now: int, later: int, renameOk: bool, renameOk2: bool, reopenOk2: bool,
                                dateOf: int -> Date)
    requires Consistent(st) && RotateDue(st, now, dateOf)
    requires DateKey(dateOf(later)) <= DateKey(dateOf(now))
    ensures var st1 := CheckRotateSpec(st, now, renameOk, true, dateOf).state;
      CheckRotateSpec(st1, later, renameOk2, reopenOk2, dateOf) == Rotation(st1, 0, None)
  {
    var st1 := CheckRotateSpec(st, now, renameOk, true, dateOf).state;
    assert st1.lastRotated == Some(now);
  }

  /** A logger opened at one instant rotates at a later one exactly when the date has moved on. */
  lemma RotatesOnNewDay(fname: string, openedAt: int, now: int, renameOk: bool, reopenOk: bool, dateOf: int -> Date)
    ensures var st := SetFileState(fname, true, openedAt);
      CheckRotateSpec(st, now, renameOk, reopenOk, dateOf).code != 0 <==> DateKey(dateOf(now)) > DateKey(dateOf(openedAt))
  {
  }

  /** Message writes the rotation notice, if any, before the caller's line, which always comes last. */
  lemma MessageOrder(st: LogState, l: Level, msg: string, now: int, stamp: string,
                     renameOk: bool, reopenOk: bool, dateOf: int -> Date)
    requires Consistent(st)
    ensures var lines := MessageLines(st, l, msg, now, stamp, renameOk, reopenOk, dateOf);
      var code := CheckRotateSpec(st, now, renameOk, reopenOk, dateOf).code;
      && lines[|lines| - 1] == FormatLine(stamp, l, msg)
      && (|lines| == 2 <==> RotateDue(st, now, dateOf))
      && (code == -1 ==> lines[0] == FormatLine(stamp, Error, "Can't rotate logfile!"))
      && (code == 1 ==> lines[0] == FormatLine(stamp, Ok, "Logfile rotated"))
      && (!RotateDue(st, now, dateOf) ==> lines == [FormatLine(stamp, l, msg)])
  {
  }

  /** A rotation whose reopen failed reports its failure on the fallback stream. */
  lemma FailedReopenFallsBack(st: LogState, now: int, renameOk: bool, dateOf: int -> Date)
    requires Consistent(st) && RotateDue(st, now, dateOf)
    ensures var r := CheckRotateSpec(st, now, renameOk, false, dateOf);
      r.code == -1 && r.state.sink == Fallback
  {
  }

  // ---------------------------------------------------------------------
  // CheckRotate as written: the rotatable, not-due path returns no value

  /**
   * The code CheckRotate returns as written: on the rotatable, not-due path
   * control falls off the end of the function, so the caller reads whatever
   * value `leftover` happens to be in the return register.
   */
  function CheckRotateCodeAsWritten(st: LogState, now: int, renameOk: bool, reopenOk: bool, dateOf: int -> Date,
                                    leftover: int): (code: int)
    requires Consistent(st)
    ensures st.rotateable && !RotateDue(st, now, dateOf) ==> code == leftover
    ensures !(st.rotateable && !RotateDue(st, now, dateOf)) ==> code == CheckRotateSpec(st, now, renameOk, reopenOk, dateOf).code
  {
    if !st.rotateable then 0
    else if DateKey(dateOf(now)) > DateKey(dateOf(st.lastRotated.value)) then
      CheckRotateSpec(st, now, renameOk, reopenOk, dateOf).code
    else leftover
  }

  /** The lines Message writes when it trusts the as-written code. */
  function MessageLinesAsWritten(st: LogState, l: Level, msg: string, now: int, stamp: string,
                                 renameOk: bool, reopenOk: bool, dateOf: int -> Date, leftover: int): seq<string>
    requires Consistent(st)
  {
    Notice(CheckRotateCodeAsWritten(st, now, renameOk, reopenOk, dateOf, leftover), stamp) + [FormatLine(stamp, l, msg)]
  }

  /**
   * The missing return shows: a logger writing to a file it opened today, with
   * a leftover value of 1, logs "Logfile rotated" although nothing was renamed;
   * the model's CheckRotate returns 0 there and Message writes only the
   * caller's line.
   */
  lemma MissingReturnSpuriousNotice(fname: string, now: int, l: Level, msg: string, stamp: string, dateOf: int -> Date)
    ensures var st := SetFileState(fname, true, now);
      && CheckRotateSpec(st, now, true, true, dateOf) == Rotation(st, 0, None)
      && MessageLinesAsWritten(st, l, msg, now, stamp, true, true, dateOf, 1)
         == [FormatLine(stamp, Ok, "Logfile rotated"), FormatLine(stamp, l, msg)]
      && MessageLines(st, l, msg, now, stamp, true, true, dateOf) == [FormatLine(stamp, l, msg)]
  {
  }

  /** The logger: output, file name, rotatable flag, last-rotated stamp, and everything written so far, with its sink. */
  class Logger {
    var sink: Sink
    var fileName: Option<string>
    var rotateable: bool
    var lastRotated: Option<int>
    var written: seq<(Sink, string)>
    const dateOf: int -> Date

    function State(): LogState
      reads this
    {
      LogState(sink, fileName, rotateable, lastRotated)
    }

    predicate Valid()
      reads this
    {
      Consistent(State())
    }

    /** A new logger writes to the fallback stream, as SetStdErr leaves it. */
    constructor(dateOf: int -> Date)
      ensures Valid() && State() == StdErrState && written == []
      ensures this.dateOf == dateOf
    {
      this.dateOf := dateOf;
      written := [];
      sink := Fallback;
      fileName := None;
      rotateable := false;
      lastRotated := None;
    }

    /** SetStdErr: back to the fallback stream, not rotatable, no stamp. */
    method SetStdErr()
      modifies this
      ensures Valid() && State() == StdErrState && written == old(written)
    {
      sink := Fallback;
      fileName := None;
      rotateable := false;
      lastRotated := None;
    }

    /**
     * SetFile: `openOk` says whether the file could be opened for appending.
     * On success the logger writes to it, remembers its name, is rotatable and
     * stamped now; on failure it falls back as SetStdErr leaves it.
     */
    method SetFile(fname: string, openOk: bool, now: int) returns (ok: bool)
      modifies this
      ensures ok == openOk
      ensures Valid() && State() == SetFileState(fname, openOk, now) && written == old(written)
    {
      if !openOk {
        SetStdErr();
        return false;
      }
      sink := LogFile(fname);
      fileName := Some(fname);
      lastRotated := Some(now);
      rotateable := true;
      return true;
    }

    /**
     * CheckRotate, with the rename and the reopen as oracles. `renamedTo` is
     * the name the file was renamed to when a rotation was attempted.
     */
    method CheckRotate(now: int, renameOk: bool, reopenOk: bool) returns (code: int, renamedTo: Option<string>)
      requires Valid()
      modifies this
      ensures Valid() && written == old(written)
      ensures Rotation(State(), code, renamedTo) == CheckRotateSpec(old(State()), now, renameOk, reopenOk, dateOf)
    {
      if !rotateable {
        return 0, None;
      }
      if DateKey(dateOf(now)) > DateKey(dateOf(lastRotated.value)) {
        var target := RotatedName(fileName.value, dateOf(now - 1));
        var reopened := SetFile(fileName.value, reopenOk, now);
        if !renameOk || !reopened {
          return -1, Some(target);
        }
        return 1, Some(target);
      }
      return 0, None;
    }

    /**
     * Message: checks for rotation first, writes the failure or success
     * notice if there was one, then the caller's line, all stamped `stamp`.
     */
    method Message(l: Level, msg: string, now: int, stamp: string, renameOk: bool, reopenOk: bool)
      requires Valid()
      modifies this
      ensures Valid()
      ensures State() == CheckRotateSpec(old(State()), now, renameOk, reopenOk, dateOf).state
      ensures written == old(written) + Written(sink, MessageLines(old(State()), l, msg, now, stamp, renameOk, reopenOk, dateOf))
    {
      var code, _ := CheckRotate(now, renameOk, reopenOk);
      if code == -1 {
        Format(Error, "Can't rotate logfile!", stamp);
      } else if code == 1 {
        Format(Ok, "Logfile rotated", stamp);
      }
      Format(l, msg, stamp);
    }

    /** Format: one line, tagged with the level, to the current sink. */
    method Format(l: Level, msg: string, stamp: string)
      modifies this
      ensures State() == old(State())
      ensures written == old(written) + [(sink, FormatLine(stamp, l, msg))]
    {
      written := written + [(sink, FormatLine(stamp, l, msg))];
    }
  }

  /** Lines tagged with the sink they went to. */
  function Written(to: Sink, lines: seq<string>): (w: seq<(Sink, string)>)
    ensures |w| == |lines|
    ensures forall i :: 0 <= i < |w| ==> w[i] == (to, lines[i])
  {
    if |lines| == 0 then [] else [(to, lines[0])] + Written(to, lines[1..])
  }
}
