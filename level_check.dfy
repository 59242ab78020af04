// TestLevelCheckAppender: a log4j2 appender for tests that remembers which
// levels it has been sent since the last reset. Its six static flags become
// the fields of one `LevelCheck` object.
module LevelChecks {
  /** A log4j2 level. The six named levels are compared by identity in the
    * appender; every other level (OFF, ALL, a custom level) is `Other`. */
  datatype Level = Fatal | Error | Warn | Info | Debug | Trace | Other(name: string)
  {
    predicate Named() { !Other? }

    /** log4j2's `intLevel`: the more severe, the smaller. */
    function Severity(): (n: nat)
      requires Named()
      ensures 1 <= n <= 6
    {
      match this
      case Fatal => 1
      case Error => 2
      case Warn => 3
      case Info => 4
      case Debug => 5
      case Trace => 6
    }
  }

  class LevelCheck {
    var gotFatal: bool
    var gotError: bool
    var gotWarn: bool
    var gotInfo: bool
    var gotDebug: bool
    var gotTrace: bool

    /** The flags start out cleared, as Java's static booleans do. */
    constructor ()
      ensures forall l: Level :: l.Named() ==> !Got(l)
    {
      gotFatal, gotError, gotWarn, gotInfo, gotDebug, gotTrace := false, false, false, false, false, false;
    }

    /** The flag of a named level. */
    predicate Got(l: Level)
      requires l.Named()
      reads this
    {
      match l
      case Fatal => gotFatal
      case Error => gotError
      case Warn => gotWarn
      case Info => gotInfo
      case Debug => gotDebug
      case Trace => gotTrace
    }

    /** Some named level whose severity lies in `low..high` was seen. */
    predicate AnyBetween(low: nat, high: nat)
      reads this
    {
      (low <= 1 <= high && gotFatal) || (low <= 2 <= high && gotError) || (low <= 3 <= high && gotWarn)
        || (low <= 4 <= high && gotInfo) || (low <= 5 <= high && gotDebug) || (low <= 6 <= high && gotTrace)
    }

    /** `reset`: clears all six flags. */
    method Reset()
      modifies this
      ensures forall l: Level :: l.Named() ==> !Got(l)
    {
      gotFatal := false;
      gotError := false;
      gotWarn := false;
      gotInfo := false;
      gotDebug := false;
      gotTrace := false;
    }

    /** `append(event)`: sets the flag of the event's level, if it is named,
      * and no other. */
    method Append(level: Level)
      modifies this
      ensures forall l: Level :: l.Named() ==> Got(l) == (l == level || old(Got(l)))
    {
      match level
      case Trace => gotTrace := true;
      case Debug => gotDebug := true;
      case Info => gotInfo := true;
      case Warn => gotWarn := true;
      case Error => gotError := true;
      case Fatal => gotFatal := true;
      case Other(_) =>
    }

    /** `gotLevel`: the flag of a named level; for any other level, whether
      * all six were seen. */
    predicate GotLevel(level: Level)
      reads this
      ensures level.Named() ==> (GotLevel(level) <==> Got(level))
      ensures !level.Named() ==> (GotLevel(level) <==> forall l: Level :: l.Named() ==> Got(l))
    {
      if level == Trace then gotTrace
      else if level == Debug then gotDebug
      else if level == Info then gotInfo
      else if level == Warn then gotWarn
      else if level == Error then gotError
      else if level == Fatal then gotFatal
      else
        assert Got(Fatal) && Got(Error) && Got(Warn) && Got(Info) && Got(Debug) && Got(Trace)
          ==> gotFatal && gotError && gotWarn && gotInfo && gotDebug && gotTrace;
        gotFatal && gotError && gotWarn && gotInfo && gotDebug && gotTrace
    }

    /** `gotLevelAtOrHigher`: a level at least as severe as `level` was
      * seen; any level at all for a level that is not named. */
    predicate GotLevelAtOrHigher(level: Level)
      reads this
      ensures level.Named() ==> (GotLevelAtOrHigher(level) <==> AnyBetween(1, level.Severity()))
      ensures !level.Named() ==> (GotLevelAtOrHigher(level) <==> AnyBetween(1, 6))
    {
      if level == Fatal then gotFatal
      else if level == Error then gotFatal || gotError
      else if level == Warn then gotFatal || gotError || gotWarn
      else if level == Info then gotFatal || gotError || gotWarn || gotInfo
      else if level == Debug then gotFatal || gotError || gotWarn || gotInfo || gotDebug
      else gotFatal || gotError || gotWarn || gotInfo || gotDebug || gotTrace
    }

    /** `gotLevelAtOrLower`: a level at most as severe as `level` was seen;
      * FATAL and the levels that are not named take in all six. */
    predicate GotLevelAtOrLower(level: Level)
      reads this
      ensures level.Named() ==> (GotLevelAtOrLower(level) <==> AnyBetween(level.Severity(), 6))
      ensures !level.Named() ==> (GotLevelAtOrLower(level) <==> AnyBetween(1, 6))
    {
      if level == Trace then gotTrace
      else if level == Debug then gotDebug || gotTrace
      else if level == Info then gotInfo || gotDebug || gotTrace
      else if level == Warn then gotWarn || gotInfo || gotDebug || gotTrace
      else if level == Error then gotError || gotWarn || gotInfo || gotDebug || gotTrace
      else gotFatal || gotError || gotWarn || gotInfo || gotDebug || gotTrace
    }
  }

  /** A level that was seen is seen at or above and at or below itself. */
  lemma SeenBothWays(c: LevelCheck, l: Level)
    requires l.Named() && c.GotLevel(l)
    ensures c.GotLevelAtOrHigher(l) && c.GotLevelAtOrLower(l)
  {
  }

  /** Less severe levels ask for more: "at or higher" widens as the level
    * drops, "at or lower" narrows. */
  lemma Widening(c: LevelCheck, a: Level, b: Level)
    requires a.Named() && b.Named() && a.Severity() <= b.Severity()
    ensures c.GotLevelAtOrHigher(a) ==> c.GotLevelAtOrHigher(b)
    ensures c.GotLevelAtOrLower(b) ==> c.GotLevelAtOrLower(a)
  {
  }
}
