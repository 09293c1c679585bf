/** The timeline every generator builds while it walks the parsed
    segments: a running clock in integer milliseconds, the list of audio
    pieces to concatenate, and a (speaker, text, start, end) entry for each
    spoken clip. A PAUSE segment adds 800 ms of silence; a spoken clip adds
    its own duration followed by 300 ms of silence; a segment whose audio
    could not be produced adds nothing. */
module Timeline {
  import opened ScriptParser
  import Seqs

  /** Silence for a `## [` section break. */
  const PauseMs: nat := 800
  /** Silence after every spoken clip. */
  const GapMs: nat := 300

  /** What became of one parsed segment: a section break, a clip of the
      given duration, or nothing (its audio failed). */
  datatype Outcome = Break | Spoken(speaker: Speaker, text: string, ms: nat) | Dropped

  datatype Entry = Entry(speaker: Speaker, text: string, start: nat, end: nat)

  /** One piece of the concatenation, tagged with its segment's index. */
  datatype Piece = Silence(index: nat, ms: nat) | Clip(index: nat)

  /** The spoken outcomes, in order. */
  function SpokenOf(outs: seq<Outcome>): (r: seq<Outcome>)
    ensures |r| <= |outs|
    ensures forall k :: 0 <= k < |r| ==> r[k].Spoken?
  {
    if |outs| == 0 then []
    else SpokenOf(outs[..|outs| - 1]) + SpokenAt(outs[|outs| - 1])
  }

  /** A segment's contribution to the spoken outcomes. */
  function SpokenAt(o: Outcome): seq<Outcome> {
    if o.Spoken? then [o] else []
  }

  function Breaks(outs: seq<Outcome>): nat {
    if |outs| == 0 then 0
    else Breaks(outs[..|outs| - 1]) + (if outs[|outs| - 1].Break? then 1 else 0)
  }

  function SumMs(spoken: seq<Outcome>): nat
    requires forall k :: 0 <= k < |spoken| ==> spoken[k].Spoken?
  {
    if |spoken| == 0 then 0 else SumMs(spoken[..|spoken| - 1]) + spoken[|spoken| - 1].ms
  }

  /** The running time of the whole episode: every clip, one gap per clip
      and one pause per section break. */
  function Length(outs: seq<Outcome>): nat {
    SumMs(SpokenOf(outs)) + GapMs * |SpokenOf(outs)| + PauseMs * Breaks(outs)
  }

  /** The audio pieces of one segment. */
  function PiecesAt(i: nat, o: Outcome): seq<Piece> {
    match o
    case Break => [Silence(i, PauseMs)]
    case Spoken(_, _, _) => [Clip(i), Silence(i, GapMs)]
    case Dropped => []
  }

  /** The audio pieces of the first `|outs|` segments, in order. */
  function Pieces(outs: seq<Outcome>): seq<Piece> {
    if |outs| == 0 then []
    else Pieces(outs[..|outs| - 1]) + PiecesAt(|outs| - 1, outs[|outs| - 1])
  }

  /** An entry records a spoken clip's speaker, text and duration. */
  predicate Records(e: Entry, o: Outcome) {
    o.Spoken? && e.speaker == o.speaker && e.text == o.text && e.end == e.start + o.ms
  }

  /** Consecutive entries never overlap: at least the gap lies between
      one's end and the next one's start. */
  predicate Ascending(es: seq<Entry>) {
    forall k :: 0 < k < |es| ==> es[k - 1].end + GapMs <= es[k].start
  }

  /** The time one segment adds to the clock. */
  function Cost(o: Outcome): nat {
    match o
    case Break => PauseMs
    case Spoken(_, _, ms) => ms + GapMs
    case Dropped => 0
  }

  /** The clock after the given segments, segment by segment. */
  function Elapsed(outs: seq<Outcome>): nat {
    if |outs| == 0 then 0 else Elapsed(outs[..|outs| - 1]) + Cost(outs[|outs| - 1])
  }

  /** How each summary of a prefix grows by one segment. */
  lemma Grow(outs: seq<Outcome>, i: nat)
    requires i < |outs|
    ensures SpokenOf(outs[..i + 1]) == SpokenOf(outs[..i]) + SpokenAt(outs[i])
    ensures Breaks(outs[..i + 1]) == Breaks(outs[..i]) + (if outs[i].Break? then 1 else 0)
    ensures Pieces(outs[..i + 1]) == Pieces(outs[..i]) + PiecesAt(i, outs[i])
    ensures Elapsed(outs[..i + 1]) == Elapsed(outs[..i]) + Cost(outs[i])
    ensures Entries(outs[..i + 1]) == Entries(outs[..i]) + EntryAt(Elapsed(outs[..i]), outs[i])
  {
    var s := outs[..i + 1];
    assert s[..|s| - 1] == outs[..i] && s[|s| - 1] == outs[i];
  }

  /** The episode length grows by each segment's cost. */
  lemma LengthGrows(outs: seq<Outcome>, i: nat)
    requires i < |outs|
    ensures Length(outs[..i + 1]) == Length(outs[..i]) + Cost(outs[i])
  {
    Grow(outs, i);
    var s := outs[..i + 1];
    var before := SpokenOf(outs[..i]);
    var b := Breaks(outs[..i]);
    match outs[i]
    case Spoken(_, _, ms) =>
      var after := before + [outs[i]];
      assert after[..|after| - 1] == before;
      assert SumMs(after) == SumMs(before) + ms;
      assert GapMs * |after| == GapMs * |before| + GapMs;
    case Break =>
      assert SpokenOf(s) == before + [] == before;
      assert Breaks(s) == b + 1;
      assert PauseMs * (b + 1) == PauseMs * b + PauseMs;
      assert Length(s) == SumMs(before) + GapMs * |before| + PauseMs * (b + 1);
    case Dropped =>
      assert SpokenOf(s) == before + [] == before;
  }

  /** One piece per break and two per spoken clip. */
  lemma {:induction false} PiecesCount(outs: seq<Outcome>)
    ensures |Pieces(outs)| == Breaks(outs) + 2 * |SpokenOf(outs)|
    decreases |outs|
  {
    if |outs| > 0 {
      var n := |outs| - 1;
      PiecesCount(outs[..n]);
      Grow(outs, n);
      assert outs[..n + 1] == outs;
    }
  }

  /** The entries written so far: one per spoken clip, in order, not
      overlapping, and the last one ended at least a gap before `clock`. */
  ghost predicate Log(entries: seq<Entry>, spoken: seq<Outcome>, clock: nat) {
    && |entries| == |spoken|
    && (forall k :: 0 <= k < |entries| ==> Records(entries[k], spoken[k]))
    && Ascending(entries)
    && (|entries| > 0 ==> entries[|entries| - 1].end + GapMs <= clock)
  }

  /** The entry a segment whose audio starts at `clock` adds, if any. */
  function EntryAt(clock: nat, o: Outcome): seq<Entry> {
    if o.Spoken? then [Entry(o.speaker, o.text, clock, clock + o.ms)] else []
  }

  /** Every segment extends the log by its entry, its spoken outcome and
      its time. */
  lemma LogStep(entries: seq<Entry>, spoken: seq<Outcome>, clock: nat, o: Outcome)
    requires Log(entries, spoken, clock)
    ensures Log(entries + EntryAt(clock, o), spoken + SpokenAt(o), clock + Cost(o))
  {
    if o.Spoken? {
      var es := entries + EntryAt(clock, o);
      forall k | 0 < k < |es|
        ensures es[k - 1].end + GapMs <= es[k].start
      {
        if k < |entries| {
          assert es[k - 1] == entries[k - 1] && es[k] == entries[k];
        }
      }
    } else {
      assert entries + EntryAt(clock, o) == entries && spoken + SpokenAt(o) == spoken;
    }
  }

  /** The transcript entries of the given segments, segment by segment:
      each spoken clip starts when the segments before it have run, so it
      ends its own duration later. */
  function Entries(outs: seq<Outcome>): seq<Entry> {
    if |outs| == 0 then []
    else Entries(outs[..|outs| - 1]) + EntryAt(Elapsed(outs[..|outs| - 1]), outs[|outs| - 1])
  }

  /** The entries record the clips one for one, never overlap, and the
      last one ends at least a gap before the clock. */
  lemma {:induction false} EntriesLog(outs: seq<Outcome>)
    ensures Log(Entries(outs), SpokenOf(outs), Elapsed(outs))
    decreases |outs|
  {
    if |outs| > 0 {
      var n := |outs| - 1;
      EntriesLog(outs[..n]);
      Grow(outs, n);
      LogStep(Entries(outs[..n]), SpokenOf(outs[..n]), Elapsed(outs[..n]), outs[n]);
      assert outs[..n + 1] == outs;
    }
  }

  /** One entry per clip. */
  lemma {:induction false} EntriesCount(outs: seq<Outcome>)
    ensures |Entries(outs)| == |SpokenOf(outs)|
    decreases |outs|
  {
    if |outs| > 0 {
      var n := |outs| - 1;
      EntriesCount(outs[..n]);
      Grow(outs, n);
      assert outs[..n + 1] == outs;
    }
  }

  /** The clip of segment `j` is the entry numbered by the clips before
      it, and it starts at the clock the segments before it reach: every
      earlier clip, gap and pause, and nothing for a dropped segment. */
  lemma {:induction false} EntryStart(outs: seq<Outcome>, j: nat)
    requires j < |outs| && outs[j].Spoken?
    ensures |SpokenOf(outs[..j])| < |Entries(outs)|
    ensures Entries(outs)[|SpokenOf(outs[..j])|]
      == Entry(outs[j].speaker, outs[j].text, Elapsed(outs[..j]), Elapsed(outs[..j]) + outs[j].ms)
    decreases |outs|
  {
    var n := |outs| - 1;
    var init := outs[..n];
    var before := Entries(init);
    Grow(outs, n);
    EntriesCount(init);
    assert outs[..n + 1] == outs;
    assert Entries(outs) == before + EntryAt(Elapsed(init), outs[n]);
    if j < n {
      EntryStart(init, j);
      assert init[..j] == outs[..j] && init[j] == outs[j];
      assert Entries(outs)[|SpokenOf(outs[..j])|] == before[|SpokenOf(outs[..j])|];
    } else {
      assert init == outs[..j];
    }
  }

  /** A section break before the first clip delays it by the pause. */
  lemma PauseDelaysClip(s: Speaker, text: string, ms: nat)
    ensures Entries([Break, Spoken(s, text, ms)]) == [Entry(s, text, PauseMs, PauseMs + ms)]
  {
    var outs := [Break, Spoken(s, text, ms)];
    Grow(outs, 0);
    Grow(outs, 1);
    assert outs[..2] == outs && outs[..0] == [];
  }

  /** The loop of `main`, `normalize_and_reassemble` and `generate_episode`
      over the segments, after each segment's audio is known. */
  method Assemble(outs: seq<Outcome>) returns (pieces: seq<Piece>, entries: seq<Entry>, clock: nat)
    ensures clock == Length(outs)
    ensures pieces == Pieces(outs)
    ensures |pieces| == Breaks(outs) + 2 * |SpokenOf(outs)|
    ensures entries == Entries(outs)
    ensures |entries| == |SpokenOf(outs)|
    ensures forall k :: 0 <= k < |entries| ==> Records(entries[k], SpokenOf(outs)[k])
    ensures Ascending(entries)
    ensures |entries| > 0 ==> entries[|entries| - 1].end + GapMs <= clock
  {
    pieces, entries, clock := [], [], 0;
    var i := 0;
    while i < |outs|
      invariant 0 <= i <= |outs|
      invariant clock == Elapsed(outs[..i])
      invariant pieces == Pieces(outs[..i])
      invariant entries == Entries(outs[..i])
    {
      Grow(outs, i);
      var o := outs[i];
      entries := entries + EntryAt(clock, o);
      pieces := pieces + PiecesAt(i, o);
      clock := clock + Cost(o);
      i := i + 1;
    }
    Seqs.WholePrefix(outs, i);
    Summarise(outs);
  }

  /** What the segment-by-segment definitions say about the whole script:
      the clock reaches the episode's length, there is one piece per break
      and two per clip, and the entries form a log of the clips. */
  lemma Summarise(outs: seq<Outcome>)
    ensures Elapsed(outs) == Length(outs)
    ensures |Pieces(outs)| == Breaks(outs) + 2 * |SpokenOf(outs)|
    ensures |Entries(outs)| == |SpokenOf(outs)|
    ensures forall k :: 0 <= k < |Entries(outs)| ==> Records(Entries(outs)[k], SpokenOf(outs)[k])
    ensures Ascending(Entries(outs))
    ensures |Entries(outs)| > 0 ==> Entries(outs)[|Entries(outs)| - 1].end + GapMs <= Elapsed(outs)
  {
    ElapsedIsLength(outs);
    PiecesCount(outs);
    EntriesLog(outs);
  }

  /** Segment by segment, the clock reaches the episode's length. */
  lemma {:induction false} ElapsedIsLength(outs: seq<Outcome>)
    ensures Elapsed(outs) == Length(outs)
    decreases |outs|
  {
    if |outs| > 0 {
      var n := |outs| - 1;
      ElapsedIsLength(outs[..n]);
      Grow(outs, n);
      LengthGrows(outs, n);
      assert outs[..n + 1] == outs;
    }
  }
}
