/** The stats aggregator: today's counters, the bounded day history, and the
    daily and cumulative key frequency tables, with day rollover, reset and
    the snapshot queries of the panel. The current date is a parameter of the
    operations that read the clock; the persistent store is the ghost record
    `stored`, and the debounce timer is the flag `savePending`. */
module Stats {
  import opened KeyNames
  import opened KeyTables

  /** Mouse travel, kept exactly: the squared Euclidean lengths of the
      moves that were counted. The travelled distance is the sum of their
      square roots. */
  type Travel = seq<nat>

  /** The live counters of the current day. */
  datatype TodayStats = TodayStats(
    keyStrokes: nat,
    leftClicks: nat,
    rightClicks: nat,
    mouseDistance: Travel,
    scrollDistance: nat,
    date: string)

  /** The archived counters of one past day. */
  datatype DayStats = DayStats(
    date: string,
    keyStrokes: nat,
    clicks: nat,
    mouseDistance: Travel,
    scrollDistance: nat)

  /** The persisted document. */
  datatype Stored = Stored(
    today: TodayStats,
    history: seq<DayStats>,
    keyStats: KeyTable,
    totalKeyStats: KeyTable)

  /** A recorded key: a raw keycode or an already built label. */
  datatype KeyArg = Code(keycode: int) | Name(name: string)

  const HistoryLimit: nat := 30
  const TopCount: nat := 15

  /** Zero counters stamped with the given date. */
  function FreshDay(date: string): (t: TodayStats)
    ensures t.keyStrokes == t.leftClicks == t.rightClicks == t.scrollDistance == 0
    ensures t.mouseDistance == [] && t.date == date
  {
    TodayStats(0, 0, 0, [], 0, date)
  }

  /** The store's defaults on first run: zero counters stamped with the date
      at which the program was loaded, and empty history and tables. The
      default day saw no activity, so it is never archived. */
  function Defaults(loadDate: string): (s: Stored)
    ensures s.today.date == loadDate && !HadActivity(s.today)
    ensures s.history == [] && DistinctKeys(s.keyStats) && DistinctKeys(s.totalKeyStats)
  {
    Stored(FreshDay(loadDate), [], [], [])
  }

  /** The table label of a recorded key. */
  function KeyLabel(key: KeyArg): (name: string)
    ensures key.Code? ==> name == GetKeyName(key.keycode)
    ensures key.Name? ==> name == key.name
  {
    match key
    case Code(k) => GetKeyName(k)
    case Name(n) => n
  }

  /** Today's counters in the shape of a history entry, under the given
      date; the two click counters are merged. */
  function Snapshot(t: TodayStats, date: string): (d: DayStats)
    ensures d.date == date && d.clicks == t.leftClicks + t.rightClicks
    ensures d.keyStrokes == t.keyStrokes && d.mouseDistance == t.mouseDistance
    ensures d.scrollDistance == t.scrollDistance
  {
    DayStats(date, t.keyStrokes, t.leftClicks + t.rightClicks, t.mouseDistance, t.scrollDistance)
  }

  /** A day is worth archiving when it has a date and saw a keystroke or a
      left click (right clicks alone do not count). */
  predicate HadActivity(t: TodayStats): (active: bool)
    ensures t.date == "" ==> !active
    ensures t.keyStrokes == 0 && t.leftClicks == 0 ==> !active
  {
    t.date != "" && (t.keyStrokes > 0 || t.leftClicks > 0)
  }

  /** `history.slice(-30)` when the history is longer than 30: the 30 most
      recent entries (all of them when there are fewer), in order. */
  function KeepRecent(h: seq<DayStats>): (r: seq<DayStats>)
    ensures |r| == if |h| > HistoryLimit then HistoryLimit else |h|
    ensures r == h[|h| - |r|..]
  {
    if |h| > HistoryLimit then h[|h| - HistoryLimit..] else h
  }

  /** The history after the outgoing day is archived: an active day becomes
      the newest entry, and the history grows by at most one entry and never
      past 30 entries. */
  function ArchiveDay(history: seq<DayStats>, outgoing: TodayStats): (r: seq<DayStats>)
    ensures HadActivity(outgoing) ==> |r| >= 1 && r[|r| - 1] == Snapshot(outgoing, outgoing.date)
    ensures |r| <= |history| + 1
    ensures |history| <= HistoryLimit ==> |r| <= HistoryLimit
  {
    if HadActivity(outgoing) then KeepRecent(history + [Snapshot(outgoing, outgoing.date)])
    else history
  }

  /** An active outgoing day becomes the newest entry, the history then keeps
      at most 30 entries, the most recent ones in their original order; an
      inactive day leaves the history as it was. */
  lemma ArchiveDaySpec(history: seq<DayStats>, outgoing: TodayStats)
    ensures var r := ArchiveDay(history, outgoing);
      && (!HadActivity(outgoing) ==> r == history)
      && (HadActivity(outgoing) ==>
            && 1 <= |r| <= HistoryLimit
            && r[|r| - 1] == Snapshot(outgoing, outgoing.date)
            && |r| == (if |history| < HistoryLimit then |history| + 1 else HistoryLimit)
            && r == (history + [Snapshot(outgoing, outgoing.date)])[|history| + 1 - |r|..])
      && (|history| <= HistoryLimit ==> |r| <= HistoryLimit)
  {
  }

  /** A full history that archives a 31st day drops its oldest entry: the
      result is entries 2 to 30 followed by the new day. */
  lemma ArchiveEvictsOldest(history: seq<DayStats>, outgoing: TodayStats)
    requires |history| == HistoryLimit && HadActivity(outgoing)
    ensures ArchiveDay(history, outgoing) == history[1..] + [Snapshot(outgoing, outgoing.date)]
  {
  }

  /** `[...history, today].slice(-days)` for days >= 1: at most `days`
      entries, ending with today's snapshot. */
  function HistoryView(history: seq<DayStats>, today: TodayStats, currentDate: string, days: int): (r: seq<DayStats>)
    requires days >= 1
    ensures 1 <= |r| <= days
    ensures r[|r| - 1] == Snapshot(today, currentDate)
  {
    var all := history + [Snapshot(today, currentDate)];
    if days >= |all| then all else all[|all| - days..]
  }

  /** The history view is the last min(days, |history| + 1) entries of the
      history followed by today's snapshot, so it always ends with today. */
  lemma HistoryViewSpec(history: seq<DayStats>, today: TodayStats, currentDate: string, days: int)
    requires days >= 1
    ensures var r := HistoryView(history, today, currentDate, days);
      && |r| == (if days < |history| + 1 then days else |history| + 1)
      && r[|r| - 1] == Snapshot(today, currentDate)
      && forall i :: 0 <= i < |r| - 1 ==> r[i] == history[|history| - (|r| - 1) + i]
  {
  }

  /** The squared distance between two mouse samples. */
  function SquaredDistance(x0: int, y0: int, x1: int, y1: int): (d: nat)
    ensures d == 0 <==> x0 == x1 && y0 == y1
    ensures d <= 1 ==> -1 <= x1 - x0 <= 1 && -1 <= y1 - y0 <= 1
  {
    var dx, dy := x1 - x0, y1 - y0;
    assert dx * dx >= 0 && dy * dy >= 0;
    dx * dx + dy * dy
  }

  /** For integer coordinates the jitter test `sqrt(dx*dx + dy*dy) > 1`
      holds exactly when the squared distance exceeds 1. */
  lemma JitterThreshold(squared: nat, distance: real)
    requires distance >= 0.0 && distance * distance == squared as real
    ensures distance > 1.0 <==> squared > 1
  {
    if distance > 1.0 {
      assert distance * distance > distance * 1.0;
    } else {
      assert distance * distance <= distance * 1.0;
    }
  }

  class StatsManager {
    var today: TodayStats
    var history: seq<DayStats>
    var keyStats: KeyTable
    var totalKeyStats: KeyTable
    var lastMouseX: int
    var lastMouseY: int
    var hasLastMouse: bool
    /** A debounced save is scheduled and has not fired yet. */
    var savePending: bool
    /** What the persistent store holds. */
    ghost var stored: Stored
    /** How many full saves have been written. */
    ghost var saves: nat

    /** Both tables have one row per label, as the objects they model do. */
    ghost predicate Valid()
      reads this
    {
      DistinctKeys(keyStats) && DistinctKeys(totalKeyStats)
    }

    /** Loads the persisted state, seeds an empty cumulative table from a
        non-empty daily one (writing it back at once), then runs the day
        check against the current date. */
    constructor (loaded: Stored, currentDate: string)
      requires DistinctKeys(loaded.keyStats) && DistinctKeys(loaded.totalKeyStats)
      ensures Valid()
      ensures !hasLastMouse && !savePending
      ensures var backfill := loaded.totalKeyStats == [] && loaded.keyStats != [];
        && totalKeyStats == (if backfill then loaded.keyStats else loaded.totalKeyStats)
        && (loaded.today.date == currentDate ==>
              && today == loaded.today && history == loaded.history && keyStats == loaded.keyStats
              && stored == loaded.(totalKeyStats := totalKeyStats))
        && (loaded.today.date != currentDate ==>
              && today == FreshDay(currentDate) && keyStats == []
              && history == ArchiveDay(loaded.history, loaded.today)
              && stored == Stored(today, if HadActivity(loaded.today) then history else loaded.history,
                                  [], totalKeyStats))
    {
      stored := loaded;
      today := loaded.today;
      history := loaded.history;
      keyStats := loaded.keyStats;
      totalKeyStats := loaded.totalKeyStats;
      lastMouseX, lastMouseY, hasLastMouse := 0, 0, false;
      savePending := false;
      saves := 0;
      new;
      if |totalKeyStats| == 0 && |keyStats| > 0 {
        totalKeyStats := keyStats;
        stored := stored.(totalKeyStats := totalKeyStats);
      }
      CheckDayChange(currentDate);
    }

    /** Writes today, the daily table and the cumulative table (the history
        is written only when a day is archived). */
    method Save()
      modifies this`stored, this`saves
      ensures stored == Stored(today, old(stored.history), keyStats, totalKeyStats)
      ensures saves == old(saves) + 1
    {
      stored := Stored(today, stored.history, keyStats, totalKeyStats);
      saves := saves + 1;
    }

    /** Schedules a save, replacing any save already scheduled. */
    method SaveDebounced()
      modifies this`savePending
      ensures savePending
    {
      savePending := true;
    }

    /** The debounce timer fires: one write of the state as it is now. */
    method DebounceElapsed()
      modifies this`savePending, this`stored, this`saves
      ensures !savePending
      ensures old(savePending) ==> stored == Stored(today, old(stored.history), keyStats, totalKeyStats)
      ensures !old(savePending) ==> stored == old(stored)
      ensures saves == old(saves) + if old(savePending) then 1 else 0
    {
      if savePending {
        savePending := false;
        Save();
      }
    }

    /** On a new date: archives the outgoing day if it saw activity (writing
        the history), starts a fresh day, clears the daily table and saves at
        once. On the same date nothing changes; as today then carries the
        current date, a second check with the same date is a no-op. */
    method CheckDayChange(currentDate: string)
      requires Valid()
      modifies this`today, this`history, this`keyStats, this`stored, this`saves
      ensures Valid()
      ensures old(today.date) == currentDate ==>
        && today == old(today) && history == old(history) && keyStats == old(keyStats)
        && stored == old(stored)
      ensures old(today.date) != currentDate ==>
        && today == FreshDay(currentDate)
        && history == ArchiveDay(old(history), old(today))
        && keyStats == []
        && stored == Stored(today, if HadActivity(old(today)) then history else old(stored.history),
                            [], totalKeyStats)
      ensures |old(history)| <= HistoryLimit ==> |history| <= HistoryLimit
      ensures today.date == currentDate
      ensures saves == old(saves) + if old(today.date) != currentDate then 1 else 0
    {
      ArchiveDaySpec(history, today);
      if today.date != currentDate {
        if today.date != "" && (today.keyStrokes > 0 || today.leftClicks > 0) {
          history := history + [Snapshot(today, today.date)];
          if |history| > HistoryLimit {
            history := history[|history| - HistoryLimit..];
          }
          stored := stored.(history := history);
        }
        today := FreshDay(currentDate);
        keyStats := [];
        Save();
      }
    }

    /** One keystroke: today's count and the key's row in both tables go up
        by one, nothing else changes, and a save is scheduled. */
    method RecordKeyPress(key: KeyArg)
      requires Valid()
      modifies this`today, this`keyStats, this`totalKeyStats, this`savePending
      ensures Valid() && savePending
      ensures today == old(today).(keyStrokes := old(today.keyStrokes) + 1)
      ensures keyStats == Bump(old(keyStats), KeyLabel(key))
      ensures totalKeyStats == Bump(old(totalKeyStats), KeyLabel(key))
      ensures Count(keyStats, KeyLabel(key)) == Count(old(keyStats), KeyLabel(key)) + 1
      ensures Count(totalKeyStats, KeyLabel(key)) == Count(old(totalKeyStats), KeyLabel(key)) + 1
      ensures forall other :: other != KeyLabel(key) ==>
        Count(keyStats, other) == Count(old(keyStats), other)
        && Count(totalKeyStats, other) == Count(old(totalKeyStats), other)
    {
      today := today.(keyStrokes := today.keyStrokes + 1);
      var keyName := KeyLabel(key);
      BumpSpec(keyStats, keyName);
      BumpSpec(totalKeyStats, keyName);
      keyStats := Bump(keyStats, keyName);
      totalKeyStats := Bump(totalKeyStats, keyName);
      SaveDebounced();
    }

    method RecordLeftClick()
      modifies this`today, this`savePending
      ensures savePending
      ensures today == old(today).(leftClicks := old(today.leftClicks) + 1)
    {
      today := today.(leftClicks := today.leftClicks + 1);
      SaveDebounced();
    }

    method RecordRightClick()
      modifies this`today, this`savePending
      ensures savePending
      ensures today == old(today).(rightClicks := old(today.rightClicks) + 1)
    {
      today := today.(rightClicks := today.rightClicks + 1);
      SaveDebounced();
    }

    /** A mouse sample: the move from the previous sample is counted only
        when there is one and the move is longer than 1; the sample always
        becomes the previous one. */
    method RecordMouseMove(x: int, y: int)
      modifies this`today, this`lastMouseX, this`lastMouseY, this`hasLastMouse, this`savePending
      ensures savePending && hasLastMouse && lastMouseX == x && lastMouseY == y
      ensures var squared := SquaredDistance(old(lastMouseX), old(lastMouseY), x, y);
        today == old(today).(mouseDistance := old(today.mouseDistance)
                   + if old(hasLastMouse) && squared > 1 then [squared] else [])
    {
      if hasLastMouse {
        var squared := SquaredDistance(lastMouseX, lastMouseY, x, y);
        if squared > 1 {
          today := today.(mouseDistance := today.mouseDistance + [squared]);
        }
      }
      lastMouseX := x;
      lastMouseY := y;
      hasLastMouse := true;
      SaveDebounced();
    }

    /** A scroll adds its absolute size, so the scroll distance never
        decreases. */
    method RecordScroll(delta: int)
      modifies this`today, this`savePending
      ensures savePending
      ensures today == old(today).(scrollDistance := old(today.scrollDistance)
                                     + if delta < 0 then -delta else delta)
      ensures today.scrollDistance >= old(today.scrollDistance)
    {
      today := today.(scrollDistance := today.scrollDistance + if delta < 0 then -delta else delta);
      SaveDebounced();
    }

    /** Starts today over under the current date and clears the daily table;
        the history and the cumulative table are left alone. Saves at once. */
    method ResetToday(currentDate: string)
      modifies this`today, this`keyStats, this`stored, this`saves
      ensures today == FreshDay(currentDate) && keyStats == []
      ensures history == old(history) && totalKeyStats == old(totalKeyStats)
      ensures stored == Stored(today, old(stored.history), [], totalKeyStats)
      ensures saves == old(saves) + 1
    {
      today := FreshDay(currentDate);
      keyStats := [];
      Save();
    }

    /** A copy of today's counters. */
    function GetTodayStats(): (t: TodayStats)
      reads this
      ensures t == today
    {
      today
    }

    /** The last `days` entries of the history followed by today's counters
        under the current date. */
    function GetHistoryData(days: int, currentDate: string): (r: seq<DayStats>)
      requires days >= 1
      reads this
      ensures |r| == (if days < |history| + 1 then days else |history| + 1)
      ensures r[|r| - 1] == Snapshot(today, currentDate)
      ensures forall i :: 0 <= i < |r| - 1 ==> r[i] == history[|history| - (|r| - 1) + i]
    {
      HistoryViewSpec(history, today, currentDate, days);
      HistoryView(history, today, currentDate, days)
    }

    /** The 15 most frequent rows of today's table, most frequent first. */
    function GetKeyStats(): (r: seq<Entry>)
      reads this
      ensures |r| == if |keyStats| <= TopCount then |keyStats| else TopCount
      ensures multiset(r) <= multiset(keyStats)
      ensures NonIncreasing(r)
      ensures forall e :: e in r ==> e in keyStats
      ensures forall e, x :: e in keyStats && e !in r && x in r ==> x.count >= e.count
    {
      TopSpec(keyStats, TopCount);
      Top(keyStats, TopCount)
    }

    /** The 15 most frequent rows of the cumulative table, most frequent
        first. */
    function GetTotalKeyStats(): (r: seq<Entry>)
      reads this
      ensures |r| == if |totalKeyStats| <= TopCount then |totalKeyStats| else TopCount
      ensures multiset(r) <= multiset(totalKeyStats)
      ensures NonIncreasing(r)
      ensures forall e :: e in r ==> e in totalKeyStats
      ensures forall e, x :: e in totalKeyStats && e !in r && x in r ==> x.count >= e.count
    {
      TopSpec(totalKeyStats, TopCount);
      Top(totalKeyStats, TopCount)
    }
  }

  /** A first run: the store holds its defaults, stamped with the date the
      program was loaded. Whatever the current date, the manager starts on a
      fresh day under it, with no history, empty tables and nothing pending. */
  method FirstRun(loadDate: string, currentDate: string) returns (stats: StatsManager)
    ensures stats.Valid() && !stats.savePending && !stats.hasLastMouse
    ensures stats.today == FreshDay(currentDate) && stats.history == []
    ensures stats.keyStats == [] && stats.totalKeyStats == []
    ensures stats.stored == Stored(FreshDay(currentDate), [], [], [])
  {
    stats := new StatsManager(Defaults(loadDate), currentDate);
  }

  /** A burst of key presses followed by the debounce timer firing: nothing
      is written during the burst, and exactly one save follows, holding the
      state after the last press. */
  method KeyBurstThenFlush(stats: StatsManager, keys: seq<KeyArg>)
    requires stats.Valid() && |keys| >= 1
    modifies stats
    ensures stats.Valid() && !stats.savePending
    ensures stats.today.keyStrokes == old(stats.today.keyStrokes) + |keys|
    ensures stats.saves == old(stats.saves) + 1
    ensures stats.stored == Stored(stats.today, old(stats.stored.history), stats.keyStats, stats.totalKeyStats)
  {
    for i := 0 to |keys|
      invariant stats.Valid()
      invariant stats.today.keyStrokes == old(stats.today.keyStrokes) + i
      invariant stats.stored == old(stats.stored) && stats.saves == old(stats.saves)
      invariant i > 0 ==> stats.savePending
    {
      stats.RecordKeyPress(keys[i]);
    }
    stats.DebounceElapsed();
  }
}
