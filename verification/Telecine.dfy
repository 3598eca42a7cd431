/** Film and telecine detection (src/TVTestVideoDecoder.cpp:350-385): one status per frame,
    a word of recent frame types, and a mode with a slow exit. */
module Telecine {
  import opened PopCounting
  import opened Options

  const REPEAT_FIRST_FIELD: bv32 := 0x2
  const PROGRESSIVE_FRAME: bv32 := 0x4
  const PROGRESSIVE_SEQUENCE: bv32 := 0x8

  const HISTORY := 31
  const ENTER_FILMS := 10
  const EXIT_FRAMES := 30 * 6

  datatype Status = Status(film: bool, recent: bv32, lastFilm: int, count: int, telecine: bool, flags: bv32)

  const INITIAL := Status(false, 0, 0, 0, false, 0)

  predicate Has(flags: bv32, flag: bv32) { flags & flag != 0 }

  // ----- one frame

  function NextFilm(film: bool, previous: bv32, flags: bv32): bool {
    if Has(flags, PROGRESSIVE_SEQUENCE) || Has(previous, REPEAT_FIRST_FIELD) then film
    else if !film && Has(flags, REPEAT_FIRST_FIELD) && Has(flags, PROGRESSIVE_FRAME) then true
    else if film && !Has(flags, REPEAT_FIRST_FIELD) then false
    else film
  }

  function Shifted(recent: bv32, film: bool): bv32 {
    if film then (recent >> 1) | 0x40000000 else recent >> 1
  }

  function NextMode(telecine: bool, entering: bool, sinceFilm: int): bool {
    if !telecine && entering then true
    else if telecine && !entering && sinceFilm >= EXIT_FRAMES then false
    else telecine
  }

  function Step(s: Status, flags: bv32): Status {
    var film := NextFilm(s.film, s.flags, flags);
    var recent := Shifted(s.recent, film);
    var lastFilm := if film then s.count else s.lastFilm;
    var entering := film && PopCount(recent) >= ENTER_FILMS;
    Status(film, recent, lastFilm, s.count + 1, NextMode(s.telecine, entering, s.count - lastFilm), flags)
  }

  class FrameClassifier {
    var film: bool
    var recentFrameTypes: bv32
    var lastFilmFrame: int
    var frameCount: int
    var telecineMode: bool
    var flags: bv32

    ghost function View(): Status
      reads this
    {
      Status(film, recentFrameTypes, lastFilmFrame, frameCount, telecineMode, flags)
    }

    constructor ()
      ensures View() == INITIAL
    {
      film, recentFrameTypes, lastFilmFrame, frameCount, telecineMode, flags := false, 0, 0, 0, false, 0;
    }

    /** The part of InitDecode that forgets the frames seen so far. */
    method Reset()
      modifies this
      ensures View() == INITIAL
    {
      telecineMode, film := false, false;
      recentFrameTypes, lastFilmFrame, frameCount := 0, 0, 0;
      flags := 0;
    }

    /** frameFlags is what GetFrameFlags delivered, or nothing when it failed. */
    method SetFrameStatus(frameFlags: Option<bv32>)
      modifies this
      ensures View() == match frameFlags { case None => old(View()) case Some(f) => Step(old(View()), f) }
    {
      hide PopCount, NextFilm, Shifted, NextMode;
      if frameFlags.None? {
        return;
      }
      UpdateFilm(frameFlags.value);
      var many := UpdateHistory();
      UpdateMode(many);
      frameCount := frameCount + 1;
      flags := frameFlags.value;
    }

    method UpdateFilm(newFlags: bv32)
      modifies this`film
      ensures film == NextFilm(old(film), flags, newFlags)
    {
      hide Has;
      if !Has(newFlags, PROGRESSIVE_SEQUENCE) && !Has(flags, REPEAT_FIRST_FIELD) {
        if !film && Has(newFlags, REPEAT_FIRST_FIELD) && Has(newFlags, PROGRESSIVE_FRAME) {
          film := true;
        } else if film && !Has(newFlags, REPEAT_FIRST_FIELD) {
          film := false;
        }
      }
    }

    method UpdateHistory() returns (entering: bool)
      modifies this`recentFrameTypes, this`lastFilmFrame
      ensures recentFrameTypes == Shifted(old(recentFrameTypes), film)
      ensures lastFilmFrame == if film then frameCount else old(lastFilmFrame)
      ensures entering <==> film && PopCount(recentFrameTypes) >= ENTER_FILMS
    {
      hide PopCount;
      entering := false;
      recentFrameTypes := recentFrameTypes >> 1;
      if film {
        recentFrameTypes := recentFrameTypes | 0x40000000;
        lastFilmFrame := frameCount;
        if PopCount(recentFrameTypes) >= ENTER_FILMS {
          entering := true;
        }
      }
    }

    method UpdateMode(entering: bool)
      modifies this`telecineMode
      ensures telecineMode == NextMode(old(telecineMode), entering, frameCount - lastFilmFrame)
    {
      if !telecineMode && entering {
        telecineMode := true;
      } else if telecineMode && !entering && frameCount - lastFilmFrame >= EXIT_FRAMES {
        telecineMode := false;
      }
    }
  }

  // ----- a run of frames since the last reset, and what it means

  /** The status after the first n frames. */
  function After(run: seq<bv32>, n: nat): Status
    requires n <= |run|
  {
    if n == 0 then INITIAL else Step(After(run, n - 1), run[n - 1])
  }

  // Bit 1 of a frame's flags tells that its first field is repeated, bit 2 that the frame is progressive, and
  // bit 3 that the sequence is.

  lemma FlagBits(flags: bv32)
    ensures Has(flags, REPEAT_FIRST_FIELD) <==> BitAt(flags, 1)
    ensures Has(flags, PROGRESSIVE_FRAME) <==> BitAt(flags, 2)
    ensures Has(flags, PROGRESSIVE_SEQUENCE) <==> BitAt(flags, 3)
  {
    FourthBits(flags);
    hide BitAt;
  }

  /** A frame that may change the film status: interlaced sequence, previous frame's field not repeated. */
  predicate Decides(run: seq<bv32>, i: nat)
    requires i < |run|
  {
    !BitAt(run[i], 3) && (i == 0 || !BitAt(run[i - 1], 1))
  }

  predicate StartsFilm(run: seq<bv32>, i: nat)
    requires i < |run|
  {
    Decides(run, i) && BitAt(run[i], 1) && BitAt(run[i], 2)
  }

  predicate EndsFilm(run: seq<bv32>, i: nat)
    requires i < |run|
  {
    Decides(run, i) && !BitAt(run[i], 1)
  }

  /** Frame i belongs to film: some frame started film and none since has ended it. */
  ghost predicate IsFilm(run: seq<bv32>, i: int)
    requires i < |run|
  {
    exists s :: 0 <= s <= i && StartsFilm(run, s) && forall t :: s < t <= i ==> !EndsFilm(run, t)
  }

  /** Film frames among the last k frames up to and including frame i. */
  ghost function Films(run: seq<bv32>, i: int, k: nat): nat
    requires i < |run|
  {
    if k == 0 then 0 else Films(run, i, k - 1) + if IsFilm(run, i - (k - 1)) then 1 else 0
  }

  ghost predicate NoRecentFilm(run: seq<bv32>, i: nat)
    requires i < |run|
  {
    forall f :: i - 180 < f <= i ==> !IsFilm(run, f)
  }

  ghost predicate ManyFilms(run: seq<bv32>, i: nat)
    requires i < |run|
  {
    IsFilm(run, i) && Films(run, i, 31) >= 10
  }

  /** Some frame had enough film frames behind it, and since then film never stayed away too long. */
  ghost predicate TelecineAt(run: seq<bv32>, n: nat)
    requires n <= |run|
  {
    exists e :: 0 <= e < n && ManyFilms(run, e) && forall f :: e < f < n ==> !NoRecentFilm(run, f)
  }

  lemma NoFlags()
    ensures !Has(INITIAL.flags, REPEAT_FIRST_FIELD)
  {
  }

  // ----- the film status

  lemma FilmStep(run: seq<bv32>, i: nat)
    requires i < |run|
    ensures IsFilm(run, i) <==> (StartsFilm(run, i) || (IsFilm(run, i - 1) && !EndsFilm(run, i)))
  {
    if IsFilm(run, i - 1) && !EndsFilm(run, i) {
      var s :| 0 <= s <= i - 1 && StartsFilm(run, s) && forall t :: s < t <= i - 1 ==> !EndsFilm(run, t);
      assert forall t :: s < t <= i ==> !EndsFilm(run, t);
    }
  }

  lemma {:induction false} FilmStatus(run: seq<bv32>, n: nat)
    requires n <= |run|
    ensures After(run, n).count == n
    ensures n > 0 ==> After(run, n).flags == run[n - 1]
    ensures After(run, n).film <==> IsFilm(run, n - 1)
  {
    hide PopCount, BitAt, Has;
    if n == 0 {
    } else {
      FilmStatus(run, n - 1);
      FilmStep(run, n - 1);
      FlagBits(run[n - 1]);
      FlagBits(After(run, n - 1).flags);
      NoFlags();
    }
  }

  // ----- the history word

  lemma {:induction false} HistoryBits(run: seq<bv32>, n: nat, j: nat)
    requires n <= |run| && j < 32
    ensures BitAt(After(run, n).recent, j) <==> j < HISTORY && IsFilm(run, n - HISTORY + j)
  {
    if n == 0 {
      BitOfZero(j);
    } else {
      var v := After(run, n - 1).recent;
      var film := IsFilm(run, n - 1);
      FilmStatus(run, n);
      assert After(run, n).recent == Shifted(v, film);
      HistoryStep(v, film, j);
      if j < 31 {
        HistoryBits(run, n - 1, j + 1);
      } else {
        NoBit32(v);
      }
    }
  }

  lemma HistoryStep(v: bv32, film: bool, j: nat)
    ensures BitAt(Shifted(v, film), j) <==> BitAt(v, j + 1) || (film && j == 30)
  {
    BitOfShifted(v, v >> 1, Shifted(v, film), film, j);
  }

  lemma {:induction false} BitsAreFilms(run: seq<bv32>, n: nat, k: nat)
    requires 0 < n <= |run| && k <= HISTORY
    ensures BitsBelow(After(run, n).recent, k) + Films(run, n - 1, HISTORY - k) == Films(run, n - 1, HISTORY)
  {
    hide BitAt, IsFilm, After;
    if k == 0 {
    } else {
      BitsAreFilms(run, n, k - 1);
      HistoryBits(run, n, k - 1);
    }
  }

  /** The population count of the history word is the number of film frames among the last 31. */
  lemma HistoryCount(run: seq<bv32>, n: nat)
    requires 0 < n <= |run|
    ensures PopCount(After(run, n).recent) == Films(run, n - 1, 31)
  {
    hide BitAt, PopCount, BitsBelow, Films, After, IsFilm;
    var v := After(run, n).recent;
    PopCountExact(v);
    BitsAreFilms(run, n, HISTORY);
    HistoryBits(run, n, 31);
    OneMoreBit(v, 31);
    NoFilms(run, n - 1);
  }

  lemma OneMoreBit(v: bv32, n: nat)
    ensures BitsBelow(v, n + 1) == BitsBelow(v, n) + if BitAt(v, n) then 1 else 0
  {
    hide BitAt;
  }

  lemma NoFilms(run: seq<bv32>, i: nat)
    requires i < |run|
    ensures Films(run, i, 0) == 0
  {
  }

  // ----- the mode

  lemma {:induction false} LatestFilm(run: seq<bv32>, n: nat)
    requires n <= |run|
    ensures forall f :: 0 <= f < n && IsFilm(run, f) ==> f <= After(run, n).lastFilm
    ensures (exists f :: 0 <= f < n && IsFilm(run, f)) ==>
              0 <= After(run, n).lastFilm < n && IsFilm(run, After(run, n).lastFilm)
  {
    hide PopCount, IsFilm;
    if n == 0 {
    } else {
      LatestFilm(run, n - 1);
      FilmStatus(run, n - 1);
      FilmStatus(run, n);
    }
  }

  lemma AwayFromFilm(run: seq<bv32>, m: nat)
    requires m < |run| && TelecineAt(run, m)
    ensures NoRecentFilm(run, m) <==> m - After(run, m + 1).lastFilm >= 180
  {
    hide IsFilm, After, Films;
    LatestFilm(run, m + 1);
    var e :| 0 <= e < m && ManyFilms(run, e);
    assert IsFilm(run, e);
  }

  lemma ModeStep(run: seq<bv32>, n: nat)
    requires n < |run|
    ensures TelecineAt(run, n + 1) <==> (ManyFilms(run, n) || (TelecineAt(run, n) && !NoRecentFilm(run, n)))
  {
    hide ManyFilms, NoRecentFilm;
    if TelecineAt(run, n) && !NoRecentFilm(run, n) {
      var e :| 0 <= e < n && ManyFilms(run, e) && forall f :: e < f < n ==> !NoRecentFilm(run, f);
      assert forall f :: e < f < n + 1 ==> !NoRecentFilm(run, f);
    }
  }

  /** After every run of frames the mode is on exactly when some frame was film with ten or more
      film frames among the last 31 and no later frame had gone 180 frames without film. */
  lemma {:induction false} TelecineCharacterised(run: seq<bv32>, n: nat)
    requires n <= |run|
    ensures After(run, n).telecine <==> TelecineAt(run, n)
  {
    if n == 0 {
    } else {
      var m := n - 1;
      TelecineCharacterised(run, m);
      ModeStep(run, m);
      FilmStatus(run, m);
      FilmStatus(run, n);
      HistoryCount(run, n);
      if TelecineAt(run, m) {
        AwayFromFilm(run, m);
      }
      hide PopCount, TelecineAt, IsFilm, NextFilm, Shifted, Films, NoRecentFilm;
    }
  }
}