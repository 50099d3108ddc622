/** dialogue.py: the turn log of a conversation between the player character
    and the non-player characters, the talking points still to be reached,
    and the two ways a turn is taken. Characters are told apart by name. */
module Dialogues {
  import opened Wrappers
  import opened Text
  import opened OrderedMap
  import opened OracleStream
  import opened Tree
  import opened Planner
  import Characters

  /** A snapshot of the non-player characters' states, keyed by name. */
  type States = Entries<string, Characters.CharState>

  /** `DialogueTurn`: who spoke, what, and the snapshot taken with it. */
  datatype Turn = Turn(speaker: string, text: string, state: States)

  /** `TalkingPoint`: the character it belongs to, its order, its description,
      and the state effect of each target text. */
  datatype TalkingPoint = TalkingPoint(owner: string, order: int, description: string, effects: States)

  /** `TalkingPoint.targets`: the target texts in insertion order. */
  function Targets(tp: TalkingPoint): seq<string>
  {
    Keys(tp.effects)
  }

  // ---------------------------------------------------------------------
  // Talking points
  // ---------------------------------------------------------------------

  /** `a` occurs in `b` in order, possibly with gaps. */
  predicate Subsequence<T(==)>(a: seq<T>, b: seq<T>)
    decreases |b|
  {
    |a| == 0 || (|b| > 0 && ((a[0] == b[0] && Subsequence(a[1..], b[1..])) || Subsequence(a, b[1..])))
  }

  /** `min(tp.order for tp in tps)`. */
  function MinOrder(tps: seq<TalkingPoint>): (m: int)
    requires |tps| > 0
    ensures exists k :: 0 <= k < |tps| && tps[k].order == m
    ensures forall k :: 0 <= k < |tps| ==> m <= tps[k].order
  {
    if |tps| == 1 then tps[0].order
    else
      var rest := MinOrder(tps[1..]);
      assert forall k :: 1 <= k < |tps| ==> tps[k] == tps[1..][k - 1];
      if tps[0].order <= rest then tps[0].order
      else
        ghost var j :| 0 <= j < |tps[1..]| && tps[1..][j].order == rest;
        assert tps[j + 1].order == rest;
        rest
  }

  /** The points of the given order, in list order. */
  function OfOrder(tps: seq<TalkingPoint>, o: int): (r: seq<TalkingPoint>)
    ensures forall p :: p in r <==> p in tps && p.order == o
    ensures Subsequence(r, tps)
  {
    if |tps| == 0 then []
    else
      var rest := OfOrder(tps[1..], o);
      if tps[0].order == o then
        assert ([tps[0]] + rest)[1..] == rest;
        [tps[0]] + rest
      else rest
  }

  /** `get_next_talking_points`: the points of the least order, in list
      order; `min` of an empty list raises. */
  function NextTalkingPoints(tps: seq<TalkingPoint>): (r: Result<seq<TalkingPoint>>)
    ensures r.Err? <==> |tps| == 0
    ensures r.Err? ==> r.error == NoTalkingPoints
    ensures r.Ok? ==> |r.value| > 0 && Subsequence(r.value, tps)
    ensures r.Ok? ==> forall p :: p in r.value <==> p in tps && forall q :: q in tps ==> p.order <= q.order
  {
    if |tps| == 0 then Err(NoTalkingPoints)
    else
      var m := MinOrder(tps);
      var r := OfOrder(tps, m);
      ghost var k :| 0 <= k < |tps| && tps[k].order == m;
      assert tps[k] in r;
      Ok(r)
  }

  /** `get_talking_point(text)`: the position of the first point listing
      `text` among its targets. */
  function PointFor(tps: seq<TalkingPoint>, text: string): (r: Option<nat>)
    ensures r.Some? ==> r.value < |tps| && text in Targets(tps[r.value])
    ensures r.Some? ==> forall j :: 0 <= j < r.value ==> text !in Targets(tps[j])
    ensures r.None? <==> forall j :: 0 <= j < |tps| ==> text !in Targets(tps[j])
  {
    if |tps| == 0 then None
    else if text in Targets(tps[0]) then Some(0)
    else match PointFor(tps[1..], text)
      case None => None
      case Some(j) => Some(j + 1)
  }

  /** `[tp for tp in tps if text not in tp.targets]`. */
  function Without(tps: seq<TalkingPoint>, text: string): (r: seq<TalkingPoint>)
    ensures forall p :: p in r <==> p in tps && text !in Targets(p)
    ensures Subsequence(r, tps)
  {
    if |tps| == 0 then []
    else
      var rest := Without(tps[1..], text);
      if text !in Targets(tps[0]) then
        assert ([tps[0]] + rest)[1..] == rest;
        [tps[0]] + rest
      else rest
  }

  /** `OfOrder` keeps every point of order `o` as often as it occurs, and
      no other point. */
  lemma {:induction false} OfOrderCount(tps: seq<TalkingPoint>, o: int)
    ensures forall p :: multiset(OfOrder(tps, o))[p] == if p.order == o then multiset(tps)[p] else 0
  {
    if |tps| > 0 {
      OfOrderCount(tps[1..], o);
      assert tps == [tps[0]] + tps[1..];
    }
  }

  /** The next talking points are every point of least order, each as
      often as it occurs. */
  lemma NextTalkingPointsCount(tps: seq<TalkingPoint>)
    requires |tps| > 0
    ensures forall p :: multiset(NextTalkingPoints(tps).value)[p] == if p.order == MinOrder(tps) then multiset(tps)[p] else 0
  {
    OfOrderCount(tps, MinOrder(tps));
  }

  /** `Without` keeps every point not listing the text as often as it
      occurs, and drops every point listing it. */
  lemma {:induction false} WithoutCount(tps: seq<TalkingPoint>, text: string)
    ensures forall p :: multiset(Without(tps, text))[p] == if text !in Targets(p) then multiset(tps)[p] else 0
  {
    if |tps| > 0 {
      WithoutCount(tps[1..], text);
      assert tps == [tps[0]] + tps[1..];
    }
  }

  /** Once a target is consumed, no remaining point lists it. */
  lemma ConsumedGone(tps: seq<TalkingPoint>, text: string)
    ensures PointFor(Without(tps, text), text).None?
  {
    var r := Without(tps, text);
    forall j | 0 <= j < |r| ensures text !in Targets(r[j]) {
      assert r[j] in r;
    }
  }

  /** A target line of one of the points. */
  predicate FormatsTarget(points: seq<TalkingPoint>, s: string)
  {
    exists k, t :: 0 <= k < |points| && t in Targets(points[k]) && s == TargetLine(points[k].owner, t)
  }

  /** The targets of the given points as "<owner>: <text>", point by point. */
  function FormatTargets(points: seq<TalkingPoint>): seq<string>
  {
    if |points| == 0 then []
    else
      var p := points[0];
      seq(|Targets(p)|, t requires 0 <= t < |Targets(p)| => TargetLine(p.owner, Targets(p)[t])) + FormatTargets(points[1..])
  }

  /** The formatted lines are exactly the target lines of the points. */
  lemma {:induction false} FormatTargetsMembers(points: seq<TalkingPoint>)
    ensures forall s :: s in FormatTargets(points) <==> FormatsTarget(points, s)
  {
    if |points| > 0 {
      var p := points[0];
      var head := seq(|Targets(p)|, t requires 0 <= t < |Targets(p)| => TargetLine(p.owner, Targets(p)[t]));
      var rest := FormatTargets(points[1..]);
      FormatTargetsMembers(points[1..]);
      assert FormatTargets(points) == head + rest;
      forall s | s in head + rest ensures FormatsTarget(points, s) {
        if s in head {
          var t :| 0 <= t < |head| && head[t] == s;
          assert Targets(points[0])[t] in Targets(points[0]);
        } else {
          var k, t :| 0 <= k < |points[1..]| && t in Targets(points[1..][k]) && s == TargetLine(points[1..][k].owner, t);
          assert points[k + 1] == points[1..][k];
        }
      }
      forall s | FormatsTarget(points, s) ensures s in head + rest {
        var k, t :| 0 <= k < |points| && t in Targets(points[k]) && s == TargetLine(points[k].owner, t);
        if k == 0 {
          var i :| 0 <= i < |Targets(p)| && Targets(p)[i] == t;
          assert head[i] == s;
        } else {
          assert points[1..][k - 1] == points[k];
          assert FormatsTarget(points[1..], s);
        }
      }
    }
  }

  /** Every line handed to the planner parses back into its owner and
      target, when owners carry no colon and names and targets no
      surrounding whitespace. */
  lemma {:induction false} FormattedTargetsParse(points: seq<TalkingPoint>, npcs: seq<string>, s: string)
    requires forall k :: 0 <= k < |points| ==>
      ':' !in points[k].owner && Clean(points[k].owner) && points[k].owner in npcs &&
      forall t :: t in Targets(points[k]) ==> Clean(t)
    requires s in FormatTargets(points)
    ensures exists k, t :: 0 <= k < |points| && t in Targets(points[k]) && ParseTarget(s, npcs) == Ok((points[k].owner, t))
  {
    FormatTargetsMembers(points);
    var k, t :| 0 <= k < |points| && t in Targets(points[k]) && s == TargetLine(points[k].owner, t);
    ParseFormatted(points[k].owner, t, npcs);
  }

  // ---------------------------------------------------------------------
  // The dialogue prompt
  // ---------------------------------------------------------------------

  /** Some turn before turn `k` is spoken by `name`. */
  predicate SaidBefore(turns: seq<Turn>, k: nat, name: string)
    requires k <= |turns|
  {
    k > 0 && (turns[k - 1].speaker == name || SaidBefore(turns, k - 1, name))
  }

  /** `SaidBefore` means what it says: some earlier turn has that speaker. */
  lemma {:induction false} SaidBeforeExists(turns: seq<Turn>, k: nat, name: string)
    requires k <= |turns|
    ensures SaidBefore(turns, k, name) <==> exists j :: 0 <= j < k && turns[j].speaker == name
  {
    if k > 0 {
      SaidBeforeExists(turns, k - 1, name);
      if turns[k - 1].speaker == name { assert 0 <= k - 1 < k && turns[k - 1].speaker == name; }
    }
  }

  /** `shown` holds, for each described character, the description last
      shown for it: its description once it has spoken before turn `i`,
      "" until then. */
  ghost predicate ShownBefore(turns: seq<Turn>, descs: Entries<string, string>, shown: Entries<string, string>, i: nat)
    requires i <= |turns|
  {
    forall m :: 0 <= m < |descs| ==>
      Get(shown, descs[m].0) == Some(if SaidBefore(turns, i, descs[m].0) then descs[m].1 else "")
  }

  /** One turn of the prompt loop: `shown` holds, for each described
      character, the description last shown for it ("" before its first
      turn). Showing a description that differs from the one held yields
      exactly the note of `Note`, and keeps `shown` in step. */
  lemma PromptStep(turns: seq<Turn>, descs: Entries<string, string>, shown: Entries<string, string>, i: nat, info: string,
                   note: Option<string>, after: Entries<string, string>)
    requires i < |turns| && Distinct(descs) && Keys(shown) == Keys(descs)
    requires forall m :: 0 <= m < |descs| ==> |descs[m].1| > 0
    requires ShownBefore(turns, descs, shown, i)
    requires turns[i].speaker in Keys(descs) ==> Get(descs, turns[i].speaker) == Some(info)
    requires note == if Get(shown, turns[i].speaker).Some? && info != Get(shown, turns[i].speaker).value then Some(info) else None
    requires after == if note.Some? then Put(shown, turns[i].speaker, info) else shown
    ensures note == Note(turns, i, descs)
    ensures Keys(after) == Keys(descs)
    ensures ShownBefore(turns, descs, after, i + 1)
  {
    var sp := turns[i].speaker;
    if sp in Keys(descs) {
      var j :| 0 <= j < |descs| && Keys(descs)[j] == sp;
      GetAt(descs, j);
      assert info == descs[j].1;
      assert Get(shown, sp) == Some(if SaidBefore(turns, i, sp) then info else "");
      assert note == Note(turns, i, descs);
      if note.Some? { assert Keys(after) == Keys(shown); }
    } else {
      assert Get(shown, sp).None?;
    }
    forall m | 0 <= m < |descs|
      ensures Get(after, descs[m].0) == Some(if SaidBefore(turns, i + 1, descs[m].0) then descs[m].1 else "")
    {
      PromptStepAt(turns, descs, shown, i, info, note, after, m);
    }
    assert ShownBefore(turns, descs, after, i + 1);
  }

  /** `PromptStep` for the entry at position `m` of the descriptions. */
  lemma PromptStepAt(turns: seq<Turn>, descs: Entries<string, string>, shown: Entries<string, string>, i: nat, info: string,
                     note: Option<string>, after: Entries<string, string>, m: nat)
    requires i < |turns| && Distinct(descs) && m < |descs|
    requires Get(shown, descs[m].0) == Some(if SaidBefore(turns, i, descs[m].0) then descs[m].1 else "")
    requires turns[i].speaker == descs[m].0 ==> info == descs[m].1
    requires note == if Get(shown, turns[i].speaker).Some? && info != Get(shown, turns[i].speaker).value then Some(info) else None
    requires after == if note.Some? then Put(shown, turns[i].speaker, info) else shown
    ensures Get(after, descs[m].0) == Some(if SaidBefore(turns, i + 1, descs[m].0) then descs[m].1 else "")
  {
    var sp := turns[i].speaker;
    var name := descs[m].0;
    assert SaidBefore(turns, i + 1, name) == (sp == name || SaidBefore(turns, i, name));
    if note.Some? {
      PutGet(shown, sp, info, name);
    }
  }

  /** The note carried by turn `k` of the prompt: the speaker's description
      when the speaker is one of `descs` and has not spoken before. */
  function Note(turns: seq<Turn>, k: nat, descs: Entries<string, string>): Option<string>
    requires k < |turns|
  {
    if turns[k].speaker in Keys(descs) && !SaidBefore(turns, k, turns[k].speaker)
    then Get(descs, turns[k].speaker)
    else None
  }

  /** The first `n` lines of the prompt: one per turn, in order, each with its note. */
  function LinesUpTo(turns: seq<Turn>, descs: Entries<string, string>, n: nat): (r: seq<Line>)
    requires n <= |turns|
    ensures |r| == n
  {
    if n == 0 then [] else LinesUpTo(turns, descs, n - 1) + [Line(turns[n - 1].speaker, turns[n - 1].text, Note(turns, n - 1, descs))]
  }

  lemma LinesUpToStep(turns: seq<Turn>, descs: Entries<string, string>, n: nat, note: Option<string>)
    requires n < |turns| && note == Note(turns, n, descs)
    ensures LinesUpTo(turns, descs, n + 1) == LinesUpTo(turns, descs, n) + [Line(turns[n].speaker, turns[n].text, note)]
  {}

  /** Line `k` of the prompt is turn `k` with its note. */
  lemma {:induction false} LinesUpToAt(turns: seq<Turn>, descs: Entries<string, string>, n: nat, k: nat)
    requires k < n <= |turns|
    ensures LinesUpTo(turns, descs, n)[k] == Line(turns[k].speaker, turns[k].text, Note(turns, k, descs))
  {
    if k < n - 1 { LinesUpToAt(turns, descs, n - 1, k); }
  }

  /** `get_dialogue_prompt` as lines. */
  function PromptLines(turns: seq<Turn>, descs: Entries<string, string>): (r: seq<Line>)
    ensures |r| == |turns|
    ensures forall k :: 0 <= k < |turns| ==> r[k] == Line(turns[k].speaker, turns[k].text, Note(turns, k, descs))
  {
    var r := LinesUpTo(turns, descs, |turns|);
    assert forall k :: 0 <= k < |turns| ==> r[k] == Line(turns[k].speaker, turns[k].text, Note(turns, k, descs)) by {
      forall k | 0 <= k < |turns| ensures r[k] == Line(turns[k].speaker, turns[k].text, Note(turns, k, descs)) {
        LinesUpToAt(turns, descs, |turns|, k);
      }
    }
    r
  }

  /** A character is annotated at most once: on a later turn of the same
      speaker there is no note. */
  lemma AnnotatedAtMostOnce(turns: seq<Turn>, descs: Entries<string, string>, k1: nat, k2: nat)
    requires k1 < k2 < |turns| && turns[k1].speaker == turns[k2].speaker
    ensures PromptLines(turns, descs)[k2].note.None?
  {
    SaidBeforeExists(turns, k2, turns[k2].speaker);
  }

  /** The first turn of a described character carries its description. */
  lemma AnnotatedFirst(turns: seq<Turn>, descs: Entries<string, string>, k: nat)
    requires k < |turns| && turns[k].speaker in Keys(descs) && !SaidBefore(turns, k, turns[k].speaker)
    ensures PromptLines(turns, descs)[k].note == Get(descs, turns[k].speaker)
    ensures PromptLines(turns, descs)[k].note.Some?
  {}

  /** A speaker without a description, the player character, is never annotated. */
  lemma UndescribedNeverAnnotated(turns: seq<Turn>, descs: Entries<string, string>, k: nat)
    requires k < |turns| && turns[k].speaker !in Keys(descs)
    ensures PromptLines(turns, descs)[k].note.None?
  {}

  // ---------------------------------------------------------------------
  // Characters by name
  // ---------------------------------------------------------------------

  /** A state that can be described and merged: it has an attitude and its
      relations have distinct keys. */
  ghost predicate Usable(s: Characters.CharState)
  {
    s.attitude.Some? && Characters.WellFormed(s)
  }

  function Names(cs: seq<Characters.Character>): (r: seq<string>)
    ensures |r| == |cs| && forall j :: 0 <= j < |cs| ==> r[j] == cs[j].name
  {
    seq(|cs|, j requires 0 <= j < |cs| => cs[j].name)
  }

  predicate DistinctNames(cs: seq<Characters.Character>)
  {
    forall j, k :: 0 <= j < k < |cs| ==> cs[j].name != cs[k].name
  }

  /** The position of the character called `name`. */
  function NameIndex(cs: seq<Characters.Character>, name: string): (j: nat)
    requires name in Names(cs)
    ensures j < |cs| && cs[j].name == name
    ensures DistinctNames(cs) ==> forall k :: 0 <= k < |cs| && cs[k].name == name ==> k == j
  {
    if cs[0].name == name then 0
    else
      assert Names(cs[1..]) == Names(cs)[1..];
      NameIndex(cs[1..], name) + 1
  }

  /** `{npc: npc.state for npc in npcs}`. */
  function LiveStates(cs: seq<Characters.Character>): (r: States)
    reads cs
    ensures |r| == |cs| && forall j :: 0 <= j < |cs| ==> r[j] == (cs[j].name, cs[j].state)
  {
    seq(|cs|, j requires 0 <= j < |cs| reads cs => (cs[j].name, cs[j].state))
  }

  /** Looking up a character in the live states gives its state; the keys
      are exactly the names. */
  lemma LiveStatesLookup(cs: seq<Characters.Character>, j: nat)
    requires DistinctNames(cs) && j < |cs|
    ensures Keys(LiveStates(cs)) == Names(cs)
    ensures Get(LiveStates(cs), cs[j].name) == Some(cs[j].state)
  {
    GetAt(LiveStates(cs), j);
  }

  /** A snapshot with every character's state written over `base`, in the
      order of the characters: it holds each character's state under its
      name, and keeps every other entry of `base`. */
  lemma SnapshotLookup(base: States, cs: seq<Characters.Character>, name: string)
    requires DistinctNames(cs)
    ensures name in Names(cs) ==> Get(PutAll(base, LiveStates(cs)), name) == Some(cs[NameIndex(cs, name)].state)
    ensures name !in Names(cs) ==> Get(PutAll(base, LiveStates(cs)), name) == Get(base, name)
  {
    var live := LiveStates(cs);
    assert Distinct(live);
    PutAllGet(base, live, name);
    assert Keys(live) == Names(cs);
    if name in Names(cs) {
      LiveStatesLookup(cs, NameIndex(cs, name));
    }
  }

  /** Two snapshots of the same characters that differ at most in the state
      of character `j` agree once that state is written in. */
  lemma LiveOverwrite(before: States, after: States, cs: seq<Characters.Character>, j: nat, v: Characters.CharState)
    requires DistinctNames(cs) && j < |cs| && |before| == |cs| && |after| == |cs|
    requires forall i :: 0 <= i < |cs| ==> before[i].0 == cs[i].name && after[i].0 == cs[i].name
    requires forall i :: 0 <= i < |cs| && i != j ==> before[i] == after[i]
    ensures Put(before, cs[j].name, v) == Put(after, cs[j].name, v)
  {
    assert Keys(before) == Keys(after);
    PutOverwrites(before, after, cs[j].name, v);
  }

  /** `get_state` on values: the last turn's snapshot, or `live` when there
      is no turn or that snapshot is empty. */
  function Snapshot(turns: seq<Turn>, live: States): States
  {
    if |turns| == 0 || |turns[|turns| - 1].state| == 0 then live else turns[|turns| - 1].state
  }

  /** Writing character `j`'s state into the snapshot gives the same result
      whether the live states were read before or after that character's
      state changed. */
  lemma SnapshotPut(turns: seq<Turn>, before: States, after: States, cs: seq<Characters.Character>, j: nat, v: Characters.CharState)
    requires DistinctNames(cs) && j < |cs| && |before| == |cs| && |after| == |cs|
    requires forall i :: 0 <= i < |cs| ==> before[i].0 == cs[i].name && after[i].0 == cs[i].name
    requires forall i :: 0 <= i < |cs| && i != j ==> before[i] == after[i]
    ensures Put(Snapshot(turns, before), cs[j].name, v) == Put(Snapshot(turns, after), cs[j].name, v)
  {
    if |turns| == 0 || |turns[|turns| - 1].state| == 0 {
      LiveOverwrite(before, after, cs, j, v);
    }
  }

  /** The live descriptions `get_state_desc()` of the characters, by name. */
  function Descriptions(cs: seq<Characters.Character>): (r: Entries<string, string>)
    reads cs
    requires forall j :: 0 <= j < |cs| ==> cs[j].state.attitude.Some?
    ensures |r| == |cs|
    ensures forall j :: 0 <= j < |cs| ==> r[j] == (cs[j].name, Characters.StateDesc(cs[j].name, cs[j].state, None))
  {
    seq(|cs|, j requires 0 <= j < |cs| && cs[j].state.attitude.Some? reads cs =>
      (cs[j].name, Characters.StateDesc(cs[j].name, cs[j].state, None)))
  }

  /** Looking up a character in the descriptions gives the description of
      its live state; the keys are exactly the names. */
  lemma DescriptionsLookup(cs: seq<Characters.Character>, j: nat)
    requires DistinctNames(cs) && j < |cs|
    requires forall i :: 0 <= i < |cs| ==> cs[i].state.attitude.Some?
    ensures Keys(Descriptions(cs)) == Names(cs)
    ensures Get(Descriptions(cs), cs[j].name) == Some(Characters.StateDesc(cs[j].name, cs[j].state, None))
  {
    var d := Descriptions(cs);
    assert Keys(d) == Names(cs);
    GetAt(d, j);
  }

  /** `get_state` read right after the player's turn, whose snapshot is
      `base` with the characters' live states written in: it gives every
      character's live state under its name, and `base`'s entry for every
      other key, whether or not that snapshot is empty. */
  lemma StateAfterPcTurn(turns: seq<Turn>, speaker: string, said: string, base: States, cs: seq<Characters.Character>, name: string)
    requires DistinctNames(cs)
    ensures Get(Snapshot(turns + [Turn(speaker, said, PutAll(base, LiveStates(cs)))], LiveStates(cs)), name)
      == if name in Names(cs) then Some(cs[NameIndex(cs, name)].state) else Get(base, name)
  {
    var live := LiveStates(cs);
    SnapshotLookup(base, cs, name);
    if |PutAll(base, live)| == 0 {
      PutAllMembers(base, live, name);
    }
  }

  /** The loop of `get_dialogue_prompt`, given the speakers' current
      descriptions: `descs` for the non-player characters, `pcInfo` for the
      player character. One line per turn; a non-player character's
      description is added when it differs from the one last shown for it,
      which happens exactly on its first turn. */
  method DialoguePrompt(turns: seq<Turn>, pcName: string, pcInfo: string, descs: Entries<string, string>) returns (lines: seq<Line>)
    requires Distinct(descs) && pcName !in Keys(descs)
    requires forall m :: 0 <= m < |descs| ==> |descs[m].1| > 0
    requires forall k :: 0 <= k < |turns| ==> turns[k].speaker == pcName || turns[k].speaker in Keys(descs)
    ensures lines == PromptLines(turns, descs)
  {
    var shown: Entries<string, string> := seq(|descs|, m requires 0 <= m < |descs| => (descs[m].0, ""));
    assert Keys(shown) == Keys(descs);
    forall m | 0 <= m < |descs| ensures Get(shown, descs[m].0) == Some("") {
      GetAt(shown, m);
    }
    lines := [];
    var i := 0;
    while i < |turns|
      invariant i <= |turns|
      invariant lines == LinesUpTo(turns, descs, i)
      invariant Keys(shown) == Keys(descs)
      invariant ShownBefore(turns, descs, shown, i)
    {
      var t := turns[i];
      var info := if t.speaker == pcName then pcInfo else Get(descs, t.speaker).value;
      var note: Option<string> := None;
      ghost var shown0 := shown;
      var seen := Get(shown, t.speaker);
      if seen.Some? && info != seen.value {
        note := Some(info);
        shown := Put(shown, t.speaker, info);
      }
      PromptStep(turns, descs, shown0, i, info, note, shown);
      LinesUpToStep(turns, descs, i, note);
      lines := lines + [Line(t.speaker, t.text, note)];
      i := i + 1;
      assert lines == LinesUpTo(turns, descs, i);
    }
  }

  /** One step of the loop of `add_pc_turn` below: `c.update_state(c.adjust_state(...))`,
      which makes two oracle calls and leaves the state as it is. */
  method AdjustOne(npc: Characters.Character, oracle: Oracle)
    requires Characters.WellFormed(npc.state)
    modifies npc, oracle
    ensures npc.state == old(npc.state)
    ensures oracle.calls == old(oracle.calls) + 2
  {
    var s, _ := npc.AdjustState(oracle);
    Characters.MergeSelf(s);
    npc.UpdateState(s);
  }

  /** The loop of `add_pc_turn` over the non-player characters: each adjusts
      its state (two oracle calls, the state staying as it is), takes the
      result as its update, and has its state written into `snapshot`. */
  method AdjustAll(npcs: seq<Characters.Character>, oracle: Oracle, snapshot: States) returns (after: States)
    requires forall j :: 0 <= j < |npcs| ==> Characters.WellFormed(npcs[j].state)
    modifies npcs, oracle
    ensures LiveStates(npcs) == old(LiveStates(npcs))
    ensures after == PutAll(snapshot, LiveStates(npcs))
    ensures oracle.calls == old(oracle.calls) + 2 * |npcs|
  {
    ghost var live := LiveStates(npcs);
    after := snapshot;
    var i := 0;
    while i < |npcs|
      invariant i <= |npcs|
      invariant forall j :: 0 <= j < |npcs| ==> npcs[j].state == old(npcs[j].state)
      invariant after == PutAll(snapshot, live[..i])
      invariant oracle.calls == old(oracle.calls) + 2 * i
    {
      var npc := npcs[i];
      AdjustOne(npc, oracle);
      assert live[i] == (npc.name, npc.state);
      PutAllSnoc(snapshot, live, i);
      after := Put(after, npc.name, npc.state);
      i := i + 1;
    }
    assert live[..i] == live;
    assert forall j :: 0 <= j < |npcs| ==> LiveStates(npcs)[j] == live[j];
    assert LiveStates(npcs) == live;
    assert after == PutAll(snapshot, LiveStates(npcs));
  }

  /** The effect a point lists for a target text: `tp.text_effects[text]`
      of the point `get_talking_point(text)` finds. */
  function Effect(tps: seq<TalkingPoint>, text: string): (e: Characters.CharState)
    requires PointFor(tps, text).Some?
    ensures Get(tps[PointFor(tps, text).value].effects, text) == Some(e)
  {
    Get(tps[PointFor(tps, text).value].effects, text).value
  }

  /** `[text for (_, text) in pairs]`. */
  function Texts(pairs: seq<(string, string)>): (r: seq<string>)
    ensures |r| == |pairs| && forall k :: 0 <= k < |pairs| ==> r[k] == pairs[k].1
  {
    seq(|pairs|, k requires 0 <= k < |pairs| => pairs[k].1)
  }

  /** `xs[:n]`. */
  function Take<T>(xs: seq<T>, n: nat): (r: seq<T>)
    ensures |r| == if n < |xs| then n else |xs|
    ensures forall k :: 0 <= k < |r| ==> r[k] == xs[k]
  {
    if n < |xs| then xs[..n] else xs
  }

  // ---------------------------------------------------------------------
  // Dialogue
  // ---------------------------------------------------------------------

  /** The planner `MCTS(dialogue, is_pc)` builds, as a value: the player
      character `pc`, the non-player characters `npcs`, the targets of the
      next talking points and the default budget. */
  function PlannerConfig(pc: string, npcs: seq<string>, points: seq<TalkingPoint>, isPc: bool): Config
  {
    Config(pc, npcs, FormatTargets(points), isPc,
           DefaultMaxIterations, DefaultNumExpand, DefaultPcExpand, DefaultRolloutDepth, DefaultRolloutWidth)
  }

  /** What `MCTS(dialogue, is_pc).search()` returns, with the tree it leaves,
      for a dialogue whose prompt is `history` and whose talking points are
      `points`, reading the oracle's answers from position `pos` on:
      `Err(NoTalkingPoints)` when no point is left, and otherwise the search
      from a lone root holding the prompt. */
  ghost function Planned(pc: string, npcs: seq<string>, points: seq<TalkingPoint>, history: seq<Line>, isPc: bool,
                         stream: nat -> string, pos: nat, bonus: real -> real): Run<(seq<Node>, Result<seq<(string, string)>>)>
  {
    var next := NextTalkingPoints(points);
    if next.Err? then Run(([], Err(next.error)), pos)
    else
      var root := Root(history, if isPc then [pc] else npcs);
      RootAlone(root.dialogue, root.next);
      SearchRun(PlannerConfig(pc, npcs, next.value, isPc), [root], stream, pos, bonus)
  }

  /** A search fails with `NoTalkingPoints`, without asking the oracle,
      exactly when no point is left, and otherwise only as the planner
      fails. */
  lemma PlannedFails(pc: string, npcs: seq<string>, points: seq<TalkingPoint>, history: seq<Line>, isPc: bool,
                     stream: nat -> string, pos: nat, bonus: real -> real)
    ensures var run := Planned(pc, npcs, points, history, isPc, stream, pos, bonus);
      && (|points| == 0 ==> run.result.1 == Err(NoTalkingPoints) && run.end == pos)
      && (|points| > 0 && run.result.1.Err? ==> SearchError(run.result.1.error))
  {
    var next := NextTalkingPoints(points);
    if next.Ok? {
      var root := Root(history, if isPc then [pc] else npcs);
      RootAlone(root.dialogue, root.next);
      SearchRunOutcome(PlannerConfig(pc, npcs, next.value, isPc), [root], stream, pos, bonus);
    }
  }

  /** A search ends in a single matched target or in the root's children
      ranked best reward first, the first `n` of them at least as good as
      any other child, after `max_iterations` root visits. */
  lemma PlannedRanks(pc: string, npcs: seq<string>, points: seq<TalkingPoint>, history: seq<Line>, isPc: bool,
                     stream: nat -> string, pos: nat, bonus: real -> real, n: nat)
    ensures var (tree, r) := Planned(pc, npcs, points, history, isPc, stream, pos, bonus).result;
      r.Ok? ==>
        || (|r.value| == 1 && IsTarget(r.value[0], FormatTargets(NextTalkingPoints(points).value), npcs))
        || (WellFormed(tree) && r.value == Ranked(tree) && TopRanked(tree, n)
            && tree[0].visits == DefaultMaxIterations && tree[0].next == (if isPc then [pc] else npcs))
  {
    var next := NextTalkingPoints(points);
    if next.Ok? {
      var cfg := PlannerConfig(pc, npcs, next.value, isPc);
      var root := Root(history, if isPc then [pc] else npcs);
      RootAlone(root.dialogue, root.next);
      SearchRunOutcome(cfg, [root], stream, pos, bonus);
      RankedTop(SearchRun(cfg, [root], stream, pos, bonus).result.0, n);
    }
  }

  /** Every speaker a search returns is a non-player character or one the
      root lets speak. */
  lemma PlannedNames(pc: string, npcs: seq<string>, points: seq<TalkingPoint>, history: seq<Line>, isPc: bool,
                     stream: nat -> string, pos: nat, bonus: real -> real)
    ensures var r := Planned(pc, npcs, points, history, isPc, stream, pos, bonus).result.1;
      r.Ok? ==> forall k :: 0 <= k < |r.value| ==> r.value[k].0 in npcs || r.value[k].0 in (if isPc then [pc] else npcs)
  {
    var next := NextTalkingPoints(points);
    if next.Ok? {
      var root := Root(history, if isPc then [pc] else npcs);
      RootAlone(root.dialogue, root.next);
      SearchRunNames(PlannerConfig(pc, npcs, next.value, isPc), [root], stream, pos, bonus);
    }
  }

  const MaxPlayerOptions: nat := 2

  class Dialogue {
    const pc: Characters.Character
    const npcs: seq<Characters.Character>
    var turns: seq<Turn>
    var talkingPoints: seq<TalkingPoint>
    /** The cached player options; None until `get_pc_options` fills it. */
    var lastOptions: Option<seq<string>>
    const maxPlayerOptions: nat

    /** Names tell the characters apart, every state can be described and
        merged, and every turn is spoken by one of the characters. */
    ghost predicate Valid()
      reads this, pc, npcs
    {
      && DistinctNames(npcs)
      && pc.name !in Names(npcs)
      && Usable(pc.state)
      && (forall j :: 0 <= j < |npcs| ==> Usable(npcs[j].state))
      && (forall k :: 0 <= k < |turns| ==> turns[k].speaker == pc.name || turns[k].speaker in Names(npcs))
      && (lastOptions.Some? ==> |lastOptions.value| <= maxPlayerOptions)
    }

    /** A dialogue as `load` leaves it: characters, talking points and the
        turns so far, no cached options. */
    constructor (pc: Characters.Character, npcs: seq<Characters.Character>, talkingPoints: seq<TalkingPoint>, turns: seq<Turn>)
      requires DistinctNames(npcs) && pc.name !in Names(npcs)
      requires Usable(pc.state) && forall j :: 0 <= j < |npcs| ==> Usable(npcs[j].state)
      requires forall k :: 0 <= k < |turns| ==> turns[k].speaker == pc.name || turns[k].speaker in Names(npcs)
      ensures Valid()
      ensures this.pc == pc && this.npcs == npcs && this.talkingPoints == talkingPoints && this.turns == turns
      ensures lastOptions.None? && maxPlayerOptions == MaxPlayerOptions
    {
      this.pc := pc;
      this.npcs := npcs;
      this.talkingPoints := talkingPoints;
      this.turns := turns;
      lastOptions := None;
      maxPlayerOptions := MaxPlayerOptions;
    }

    /** `get_state`: the last turn's snapshot, or the live states of the
        non-player characters when there is no turn or that snapshot is
        empty. Being a value, changing it changes no turn and no character. */
    function State(): (r: States)
      reads this, npcs
    {
      Snapshot(turns, LiveStates(npcs))
    }

    /** `add_pc_turn` rewrites a text exactly when options are cached and
        the text is not one of them. */
    predicate Rewrites(text: string)
      reads this
    {
      lastOptions.Some? && |lastOptions.value| > 0 && text !in lastOptions.value
    }

    /** The dialogue prompt of the current turns. */
    function Prompt(): seq<Line>
      reads this, pc, npcs
      requires Valid()
    {
      PromptLines(turns, Descriptions(npcs))
    }

    /** `get_dialogue_prompt`. */
    method GetDialoguePrompt() returns (lines: seq<Line>)
      requires Valid()
      ensures lines == Prompt()
    {
      var descs := Descriptions(npcs);
      assert Keys(descs) == Names(npcs);
      assert Distinct(descs);
      var pcInfo := Characters.StateDesc(pc.name, pc.state, None);
      lines := DialoguePrompt(turns, pc.name, pcInfo, descs);
    }

    /** `add_pc_turn`. A text that is not one of the cached options is first
        rewritten by the player character (one oracle call); building the
        prompt for it fails when no talking point is left. */
    method AddPcTurn(text: string, oracle: Oracle) returns (r: Result<Turn>)
      requires Valid()
      modifies this, npcs, oracle
      ensures Valid()
      ensures talkingPoints == old(talkingPoints)
      ensures LiveStates(npcs) == old(LiveStates(npcs))
      ensures r.Err? ==> r.error == NoTalkingPoints && |talkingPoints| == 0 && lastOptions == old(lastOptions)
      ensures r.Err? && old(Rewrites(text)) ==> turns == old(turns) && oracle.calls == old(oracle.calls)
      ensures r.Err? && !old(Rewrites(text)) ==>
        && |npcs| > 0
        && turns == old(turns) + [Turn(pc.name, text, old(State()))]
        && oracle.calls == old(oracle.calls)
      ensures r.Ok? ==>
        && r.value.speaker == pc.name
        && r.value.text == (if old(Rewrites(text)) then Characters.TranslateReply(pc.name, oracle.stream(old(oracle.calls))) else text)
        && r.value.state == PutAll(old(State()), LiveStates(npcs))
        && turns == old(turns) + [r.value]
        && lastOptions.None?
        && oracle.calls == old(oracle.calls) + (if old(Rewrites(text)) then 1 else 0) + 2 * |npcs|
    {
      var said := text;
      if lastOptions.Some? && |lastOptions.value| > 0 && text !in lastOptions.value {
        if |talkingPoints| == 0 {
          return Err(NoTalkingPoints);
        }
        said := pc.Translate(oracle);
      }
      r := AppendPcTurn(said, oracle);
    }

    /** The rest of `add_pc_turn`: the turn is appended with a copy of the
        current snapshot; then every non-player character adjusts its state
        (two oracle calls each, the state staying as it is) and its state is
        written into the new turn's snapshot. Building the first adjustment
        prompt fails, after the append, when no talking point is left. */
    method AppendPcTurn(said: string, oracle: Oracle) returns (r: Result<Turn>)
      requires Valid()
      modifies this, npcs, oracle
      ensures Valid()
      ensures talkingPoints == old(talkingPoints)
      ensures LiveStates(npcs) == old(LiveStates(npcs))
      ensures r.Err? ==>
        && r.error == NoTalkingPoints && |talkingPoints| == 0 && |npcs| > 0
        && turns == old(turns) + [Turn(pc.name, said, old(State()))]
        && lastOptions == old(lastOptions) && oracle.calls == old(oracle.calls)
      ensures r.Ok? ==>
        && r.value == Turn(pc.name, said, PutAll(old(State()), LiveStates(npcs)))
        && turns == old(turns) + [r.value]
        && lastOptions.None?
        && oracle.calls == old(oracle.calls) + 2 * |npcs|
    {
      var snapshot := State();
      turns := turns + [Turn(pc.name, said, snapshot)];
      if |npcs| > 0 && |talkingPoints| == 0 {
        return Err(NoTalkingPoints);
      }
      ghost var live := LiveStates(npcs);
      ghost var before := turns;
      snapshot := AdjustAll(npcs, oracle, snapshot);
      assert LiveStates(npcs) == live && turns == before;
      turns := turns[|turns| - 1 := Turn(pc.name, said, snapshot)];
      lastOptions := None;
      r := Ok(turns[|turns| - 1]);
      assert turns == old(turns) + [r.value];
      assert LiveStates(npcs) == old(LiveStates(npcs));
    }

    /** `MCTS(self, is_pc).search()`. Building the planner fails when no
        talking point is left; otherwise its root holds the dialogue prompt
        and lets the player character speak, or the non-player characters.
        Only the oracle changes. */
    method RunSearch(isPc: bool, oracle: Oracle, bonus: real -> real) returns (r: Result<seq<(string, string)>>, ghost tree: seq<Node>)
      requires Valid()
      modifies oracle
      ensures (tree, r) == old(Planned(pc.name, Names(npcs), talkingPoints, Prompt(), isPc, oracle.stream, oracle.calls, bonus)).result
      ensures oracle.calls == old(Planned(pc.name, Names(npcs), talkingPoints, Prompt(), isPc, oracle.stream, oracle.calls, bonus)).end
    {
      tree := [];
      var next := NextTalkingPoints(talkingPoints);
      if next.Err? {
        return Err(next.error), tree;
      }
      var history := GetDialoguePrompt();
      var cfg := PlannerConfig(pc.name, Names(npcs), next.value, isPc);
      ghost var pos := oracle.calls;
      ghost var run := SearchRun(cfg, [Root(history, if isPc then [pc.name] else Names(npcs))], oracle.stream, pos, bonus);
      assert Planned(pc.name, Names(npcs), talkingPoints, history, isPc, oracle.stream, pos, bonus) == run;
      r, tree := SearchFresh(cfg, history, oracle, bonus);
    }

    /** `get_pc_options`: the cached options when there are some; otherwise
        the texts of the best `max_player_options` lines the planner ranks
        for the player character, which become the cache. */
    method GetPcOptions(oracle: Oracle, bonus: real -> real) returns (r: Result<seq<string>>, ghost ranked: seq<(string, string)>)
      requires Valid()
      modifies this, oracle
      ensures Valid()
      ensures turns == old(turns) && talkingPoints == old(talkingPoints)
      ensures old(lastOptions).Some? && |old(lastOptions).value| > 0 ==>
        r == Ok(old(lastOptions).value) && lastOptions == old(lastOptions) && oracle.calls == old(oracle.calls)
      ensures !(old(lastOptions).Some? && |old(lastOptions).value| > 0) ==>
        var run := old(Planned(pc.name, Names(npcs), talkingPoints, Prompt(), true, oracle.stream, oracle.calls, bonus));
        && oracle.calls == run.end
        && (run.result.1.Err? ==> r == Err(run.result.1.error) && lastOptions == old(lastOptions))
        && (run.result.1.Ok? ==>
              && ranked == run.result.1.value
              && r == Ok(Texts(Take(ranked, maxPlayerOptions)))
              && lastOptions == Some(r.value))
      ensures !(old(lastOptions).Some? && |old(lastOptions).value| > 0) && |talkingPoints| == 0 ==>
        r == Err(NoTalkingPoints) && oracle.calls == old(oracle.calls)
      ensures r.Err? ==> (r.error == NoTalkingPoints || SearchError(r.error)) && lastOptions == old(lastOptions)
      ensures r.Ok? ==> lastOptions == Some(r.value) && |r.value| <= maxPlayerOptions
      ensures r.Ok? && !(old(lastOptions).Some? && |old(lastOptions).value| > 0) ==>
        forall k :: 0 <= k < |ranked| ==> ranked[k].0 == pc.name || ranked[k].0 in Names(npcs)
    {
      ranked := [];
      if lastOptions.Some? && |lastOptions.value| > 0 {
        return Ok(lastOptions.value), ranked;
      }
      r, ranked := SearchOptions(oracle, bonus);
    }

    /** The uncached part of `get_pc_options`: a player search whose best
        `max_player_options` texts become the cache. */
    method SearchOptions(oracle: Oracle, bonus: real -> real) returns (r: Result<seq<string>>, ghost ranked: seq<(string, string)>)
      requires Valid()
      modifies this, oracle
      ensures Valid()
      ensures turns == old(turns) && talkingPoints == old(talkingPoints)
      ensures var run := old(Planned(pc.name, Names(npcs), talkingPoints, Prompt(), true, oracle.stream, oracle.calls, bonus));
        && oracle.calls == run.end
        && (run.result.1.Err? ==> r == Err(run.result.1.error) && lastOptions == old(lastOptions))
        && (run.result.1.Ok? ==>
              && ranked == run.result.1.value
              && r == Ok(Texts(Take(ranked, maxPlayerOptions)))
              && lastOptions == Some(r.value))
      ensures |talkingPoints| == 0 ==> r == Err(NoTalkingPoints) && oracle.calls == old(oracle.calls)
      ensures r.Err? ==> (r.error == NoTalkingPoints || SearchError(r.error)) && lastOptions == old(lastOptions)
      ensures r.Ok? ==> lastOptions == Some(r.value) && |r.value| <= maxPlayerOptions
      ensures r.Ok? ==> forall k :: 0 <= k < |ranked| ==> ranked[k].0 == pc.name || ranked[k].0 in Names(npcs)
    {
      ranked := [];
      ghost var run := Planned(pc.name, Names(npcs), talkingPoints, Prompt(), true, oracle.stream, oracle.calls, bonus);
      PlannedFails(pc.name, Names(npcs), talkingPoints, Prompt(), true, oracle.stream, oracle.calls, bonus);
      PlannedNames(pc.name, Names(npcs), talkingPoints, Prompt(), true, oracle.stream, oracle.calls, bonus);
      var found, tree := RunSearch(true, oracle, bonus);
      assert found == run.result.1 && oracle.calls == run.end;
      if found.Err? {
        return Err(found.error), ranked;
      }
      ranked := found.value;
      var options := Texts(Take(found.value, maxPlayerOptions));
      lastOptions := Some(options);
      r := Ok(options);
    }

    /** `take_npc_turn`: the planner's best line, spoken by the non-player
        character it names. Building the planner fails when no talking
        point is left, and `search()[0]` fails on an empty ranking; the
        chosen line then goes to `Respond`, whose effects are stated here
        for the speaker `picked.0`. */
    method TakeNpcTurn(oracle: Oracle, bonus: real -> real) returns (r: Result<Turn>, ghost picked: (string, string))
      requires Valid()
      modifies this, npcs, oracle
      ensures Valid()
      ensures var run := old(Planned(pc.name, Names(npcs), talkingPoints, Prompt(), false, oracle.stream, oracle.calls, bonus));
        var found := run.result.1;
        && (found.Err? ==> r == Err(found.error))
        && (found == Ok([]) ==> r == Err(EmptyResult))
        && (found.Err? || found == Ok([]) ==>
              && turns == old(turns) && talkingPoints == old(talkingPoints) && lastOptions == old(lastOptions)
              && LiveStates(npcs) == old(LiveStates(npcs)) && oracle.calls == run.end)
        && (found.Ok? && |found.value| > 0 ==> picked == found.value[0] && picked.0 in Names(npcs))
      ensures var run := old(Planned(pc.name, Names(npcs), talkingPoints, Prompt(), false, oracle.stream, oracle.calls, bonus));
        var found := run.result.1;
        found.Ok? && |found.value| > 0 ==>
          var j := NameIndex(npcs, picked.0);
          var reached := PointFor(old(talkingPoints), picked.1).Some?;
          && LiveStates(npcs) == old(LiveStates(npcs))[j := (picked.0, npcs[j].state)]
          && (reached ==>
                && talkingPoints == Without(old(talkingPoints), picked.1)
                && npcs[j].state == Characters.Merge(old(npcs[j].state), Effect(old(talkingPoints), picked.1)))
          && (!reached ==> talkingPoints == old(talkingPoints) && LiveStates(npcs) == old(LiveStates(npcs)))
          && (r.Err? ==>
                && reached && |talkingPoints| == 0 && r.error == NoTalkingPoints
                && turns == old(turns) && lastOptions == old(lastOptions) && oracle.calls == run.end)
          && (r.Ok? ==>
                && r.value.speaker == picked.0
                && r.value.text == (if reached then Characters.TranslateReply(picked.0, oracle.stream(run.end)) else picked.1)
                && r.value.state == Put(old(State()), picked.0, npcs[j].state)
                && turns == old(turns) + [r.value]
                && lastOptions.None? && |talkingPoints| > 0
                && oracle.calls == run.end + (if reached then 1 else 2))
      ensures old(|talkingPoints|) == 0 ==>
        r == Err(NoTalkingPoints) && turns == old(turns) && talkingPoints == old(talkingPoints) && oracle.calls == old(oracle.calls)
      ensures r.Err? ==> (r.error == NoTalkingPoints || r.error == EmptyResult || SearchError(r.error))
    {
      picked := ("", "");
      ghost var run := Planned(pc.name, Names(npcs), talkingPoints, Prompt(), false, oracle.stream, oracle.calls, bonus);
      PlannedFails(pc.name, Names(npcs), talkingPoints, Prompt(), false, oracle.stream, oracle.calls, bonus);
      PlannedNames(pc.name, Names(npcs), talkingPoints, Prompt(), false, oracle.stream, oracle.calls, bonus);
      ghost var tps, ts, live := talkingPoints, turns, LiveStates(npcs);
      var found, tree := RunSearch(false, oracle, bonus);
      assert found == run.result.1 && oracle.calls == run.end;
      assert talkingPoints == tps && turns == ts && LiveStates(npcs) == live;
      if found.Err? {
        return Err(found.error), picked;
      }
      if |found.value| == 0 {
        return Err(EmptyResult), picked;
      }
      assert Valid();
      picked := found.value[0];
      var (name, text) := found.value[0];
      assert name in Names(npcs);
      r := Respond(NameIndex(npcs, name), text, oracle);
    }

    /** What `take_npc_turn` does with the chosen line. A line that reaches a
        talking point consumes it: the point and every other point listing
        the same text are dropped, the speaker takes the point's effect and
        rewrites the line (one oracle call, whose prompt fails when no
        talking point is left). Any other line is kept as it is, and the
        speaker adjusts its state (two oracle calls, the state staying as it
        is). The new turn's snapshot is the current one with the speaker's
        state written in. */
    method Respond(j: nat, text: string, oracle: Oracle) returns (r: Result<Turn>)
      requires Valid() && j < |npcs| && |talkingPoints| > 0
      modifies this, npcs[j], oracle
      ensures Valid()
      ensures LiveStates(npcs) == old(LiveStates(npcs))[j := (npcs[j].name, npcs[j].state)]
      ensures PointFor(old(talkingPoints), text).Some? ==>
        && talkingPoints == Without(old(talkingPoints), text)
        && npcs[j].state == Characters.Merge(old(npcs[j].state), Effect(old(talkingPoints), text))
      ensures PointFor(old(talkingPoints), text).None? ==>
        && talkingPoints == old(talkingPoints)
        && LiveStates(npcs) == old(LiveStates(npcs))
      ensures r.Err? ==>
        && PointFor(old(talkingPoints), text).Some? && |talkingPoints| == 0 && r.error == NoTalkingPoints
        && turns == old(turns) && lastOptions == old(lastOptions) && oracle.calls == old(oracle.calls)
      ensures r.Ok? ==>
        && r.value.speaker == npcs[j].name
        && r.value.text == (if PointFor(old(talkingPoints), text).Some?
                            then Characters.TranslateReply(npcs[j].name, oracle.stream(old(oracle.calls)))
                            else text)
        && r.value.state == Put(old(State()), npcs[j].name, npcs[j].state)
        && turns == old(turns) + [r.value]
        && lastOptions.None? && |talkingPoints| > 0
        && oracle.calls == old(oracle.calls) + (if PointFor(old(talkingPoints), text).Some? then 1 else 2)
    {
      if PointFor(talkingPoints, text).Some? {
        r := ReachPoint(j, text, oracle);
      } else {
        var c := npcs[j];
        var s, _ := c.AdjustState(oracle);
        Characters.MergeSelf(s);
        UpdateNpc(j, s);
        assert LiveStates(npcs) == old(LiveStates(npcs));
        var state := State();
        state := Put(state, c.name, c.state);
        var turn := AppendNpcTurn(j, text, state);
        r := Ok(turn);
      }
    }

    /** The talking-point branch of `take_npc_turn`: the point and every
        other point listing the text are dropped, the speaker takes the
        point's effect, then rewrites the line (one oracle call, whose prompt
        fails when no talking point is left). */
    method ReachPoint(j: nat, text: string, oracle: Oracle) returns (r: Result<Turn>)
      requires Valid() && j < |npcs| && PointFor(talkingPoints, text).Some?
      modifies this, npcs[j], oracle
      ensures Valid()
      ensures talkingPoints == Without(old(talkingPoints), text)
      ensures npcs[j].state == Characters.Merge(old(npcs[j].state), Effect(old(talkingPoints), text))
      ensures LiveStates(npcs) == old(LiveStates(npcs))[j := (npcs[j].name, npcs[j].state)]
      ensures r.Err? ==>
        && |talkingPoints| == 0 && r.error == NoTalkingPoints
        && turns == old(turns) && lastOptions == old(lastOptions) && oracle.calls == old(oracle.calls)
      ensures r.Ok? ==>
        && r.value.speaker == npcs[j].name
        && r.value.text == Characters.TranslateReply(npcs[j].name, oracle.stream(old(oracle.calls)))
        && r.value.state == Put(old(State()), npcs[j].name, npcs[j].state)
        && turns == old(turns) + [r.value]
        && lastOptions.None? && |talkingPoints| > 0
        && oracle.calls == old(oracle.calls) + 1
    {
      ghost var before, snap0, t0 := LiveStates(npcs), State(), turns;
      ConsumePoint(j, text);
      if |talkingPoints| == 0 {
        return Err(NoTalkingPoints);
      }
      var c := npcs[j];
      ghost var live := LiveStates(npcs);
      ghost var tps := talkingPoints;
      var said := c.Translate(oracle);
      assert LiveStates(npcs) == live && talkingPoints == tps && turns == t0;
      assert Valid();
      var state := State();
      SnapshotPut(turns, before, LiveStates(npcs), npcs, j, c.state);
      state := Put(state, c.name, c.state);
      assert state == Put(snap0, npcs[j].name, npcs[j].state);
      var turn := AppendNpcTurn(j, said, state);
      r := Ok(turn);
      assert turns == t0 + [r.value];
    }

    /** The point and every other point listing `text` are dropped, and
        non-player character `j` takes the point's effect. */
    method ConsumePoint(j: nat, text: string)
      requires Valid() && j < |npcs| && PointFor(talkingPoints, text).Some?
      modifies this, npcs[j]
      ensures Valid()
      ensures talkingPoints == Without(old(talkingPoints), text)
      ensures npcs[j].state == Characters.Merge(old(npcs[j].state), Effect(old(talkingPoints), text))
      ensures LiveStates(npcs) == old(LiveStates(npcs))[j := (npcs[j].name, npcs[j].state)]
      ensures turns == old(turns) && lastOptions == old(lastOptions)
    {
      var effect := Effect(talkingPoints, text);
      talkingPoints := Without(talkingPoints, text);
      UpdateNpc(j, effect);
    }

    /** `character.update_state(delta)` for non-player character `j`; every
        other character keeps its state. */
    method UpdateNpc(j: nat, delta: Characters.CharState)
      requires Valid() && j < |npcs|
      modifies npcs[j]
      ensures Valid()
      ensures npcs[j].state == Characters.Merge(old(npcs[j].state), delta)
      ensures LiveStates(npcs) == old(LiveStates(npcs))[j := (npcs[j].name, npcs[j].state)]
    {
      var c := npcs[j];
      ghost var before := LiveStates(npcs);
      Characters.MergeKeepsKeys(c.state, delta, "");
      c.UpdateState(delta);
      forall m | 0 <= m < |npcs| && m != j ensures npcs[m] != c { assert npcs[m].name != npcs[j].name; }
      assert LiveStates(npcs) == before[j := (c.name, c.state)];
      assert Valid() by {
        forall m | 0 <= m < |npcs| ensures Usable(npcs[m].state) {
          if m != j { assert npcs[m].state == old(npcs[m].state); }
        }
      }
    }

    /** The end of `take_npc_turn`: the turn is appended with the given
        snapshot, and the cached options are dropped. */
    method AppendNpcTurn(j: nat, said: string, snapshot: States) returns (turn: Turn)
      requires Valid() && j < |npcs|
      modifies this
      ensures Valid()
      ensures turn == Turn(npcs[j].name, said, snapshot)
      ensures turns == old(turns) + [turn]
      ensures talkingPoints == old(talkingPoints) && lastOptions.None?
    {
      turn := Turn(npcs[j].name, said, snapshot);
      turns := turns + [turn];
      lastOptions := None;
    }
  }
}
