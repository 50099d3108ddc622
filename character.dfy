/** Characters, their attitude and their relations to other characters
    (character.py). A character is identified by its name: Python's
    `__eq__` and `__hash__` look only at `name`, so every dictionary keyed
    by characters is modelled as one keyed by names. */
module Characters {
  import opened Wrappers
  import opened Text
  import opened OrderedMap
  import opened OracleStream

  // ---------------------------------------------------------------------
  // Enumerations and `myEnum.get_enum`
  // ---------------------------------------------------------------------

  datatype Attitude =
    CALM | HAPPY | SAD | ANGRY | SCARED | EXCITED | CONFUSED | DISGUSTED | SURPRISED | PLAYFUL | NERVOUS

  datatype Relation =
    NEUTRAL | FRIENDLY | HOSTILE | ROMANTIC | FAMILIAL | PROFESSIONAL

  /** The members in declaration order, which is the iteration order of the enum. */
  const Attitudes: seq<Attitude> :=
    [CALM, HAPPY, SAD, ANGRY, SCARED, EXCITED, CONFUSED, DISGUSTED, SURPRISED, PLAYFUL, NERVOUS]

  const Relations: seq<Relation> :=
    [NEUTRAL, FRIENDLY, HOSTILE, ROMANTIC, FAMILIAL, PROFESSIONAL]

  function AttitudeName(a: Attitude): string
  {
    match a
    case CALM => "CALM"
    case HAPPY => "HAPPY"
    case SAD => "SAD"
    case ANGRY => "ANGRY"
    case SCARED => "SCARED"
    case EXCITED => "EXCITED"
    case CONFUSED => "CONFUSED"
    case DISGUSTED => "DISGUSTED"
    case SURPRISED => "SURPRISED"
    case PLAYFUL => "PLAYFUL"
    case NERVOUS => "NERVOUS"
  }

  function AttitudeValue(a: Attitude): int
  {
    match a
    case CALM => 0
    case HAPPY => 1
    case SAD => 2
    case ANGRY => 3
    case SCARED => 4
    case EXCITED => 5
    case CONFUSED => 6
    case DISGUSTED => 7
    case SURPRISED => 8
    case PLAYFUL => 9
    case NERVOUS => 10
  }

  function RelationName(r: Relation): string
  {
    match r
    case NEUTRAL => "NEUTRAL"
    case FRIENDLY => "FRIENDLY"
    case HOSTILE => "HOSTILE"
    case ROMANTIC => "ROMANTIC"
    case FAMILIAL => "FAMILIAL"
    case PROFESSIONAL => "PROFESSIONAL"
  }

  function RelationValue(r: Relation): int
  {
    match r
    case NEUTRAL => 0
    case FRIENDLY => 1
    case HOSTILE => 2
    case ROMANTIC => 3
    case FAMILIAL => 4
    case PROFESSIONAL => 5
  }

  /** What `get_enum` may be handed: a member already, a string or an integer. */
  datatype Key<E> = Member(member: E) | Str(s: string) | Int(n: int)

  /** `att.name == value or att.value == value` (a string never equals an integer). */
  predicate Matches<E>(name: E -> string, value: E -> int, m: E, key: Key<E>)
  {
    match key
    case Member(_) => false
    case Str(s) => name(m) == s
    case Int(n) => value(m) == n
  }

  function FirstMatch<E>(members: seq<E>, name: E -> string, value: E -> int, key: Key<E>): (r: Option<nat>)
    ensures r.Some? ==> r.value < |members| && Matches(name, value, members[r.value], key)
    ensures r.Some? ==> forall j :: 0 <= j < r.value ==> !Matches(name, value, members[j], key)
    ensures r.None? ==> forall j :: 0 <= j < |members| ==> !Matches(name, value, members[j], key)
  {
    if |members| == 0 then None
    else if Matches(name, value, members[0], key) then Some(0)
    else match FirstMatch(members[1..], name, value, key)
      case None => None
      case Some(i) => Some(i + 1)
  }

  /** `myEnum.get_enum`: a member is returned unchanged; otherwise the first
      member (in declaration order) whose name or value equals the key;
      no match is the `IndexError` of `[...][0]`. */
  function Resolve<E>(members: seq<E>, name: E -> string, value: E -> int, key: Key<E>): (r: Result<E>)
    ensures key.Member? ==> r == Ok(key.member)
    ensures !key.Member? && r.Ok? ==>
      exists i :: 0 <= i < |members| && members[i] == r.value && Matches(name, value, members[i], key)
                  && forall j :: 0 <= j < i ==> !Matches(name, value, members[j], key)
    ensures !key.Member? ==>
      (r.Err? <==> forall j :: 0 <= j < |members| ==> !Matches(name, value, members[j], key))
    ensures r.Err? ==> r.error == InvalidEnumValue
  {
    if key.Member? then Ok(key.member)
    else match FirstMatch(members, name, value, key)
      case None => Err(InvalidEnumValue)
      case Some(i) => Ok(members[i])
  }

  function GetAttitude(key: Key<Attitude>): Result<Attitude>
  {
    Resolve(Attitudes, AttitudeName, AttitudeValue, key)
  }

  function GetRelation(key: Key<Relation>): Result<Relation>
  {
    Resolve(Relations, RelationName, RelationValue, key)
  }

  /** Distinct members have distinct names and distinct values. */
  ghost predicate Injective<E>(members: seq<E>, name: E -> string, value: E -> int)
  {
    forall i, j :: 0 <= i < j < |members| ==> name(members[i]) != name(members[j]) && value(members[i]) != value(members[j])
  }

  /** Under injective names and values, a member's name and its value both resolve to it. */
  lemma ResolveRoundTrip<E>(members: seq<E>, name: E -> string, value: E -> int, k: nat)
    requires Injective(members, name, value) && k < |members|
    ensures Resolve(members, name, value, Str(name(members[k]))) == Ok(members[k])
    ensures Resolve(members, name, value, Int(value(members[k]))) == Ok(members[k])
  {
    forall j | 0 <= j < |members| && j != k
      ensures !Matches(name, value, members[j], Str(name(members[k])))
      ensures !Matches(name, value, members[j], Int(value(members[k])))
    {
      if j < k { assert name(members[j]) != name(members[k]) && value(members[j]) != value(members[k]); }
      else { assert name(members[k]) != name(members[j]) && value(members[k]) != value(members[j]); }
    }
    assert Matches(name, value, members[k], Str(name(members[k])));
    assert Matches(name, value, members[k], Int(value(members[k])));
  }

  function AttitudeOfName(s: string): Option<Attitude>
  {
    if s == "CALM" then Some(CALM)
    else if s == "HAPPY" then Some(HAPPY)
    else if s == "SAD" then Some(SAD)
    else if s == "ANGRY" then Some(ANGRY)
    else if s == "SCARED" then Some(SCARED)
    else if s == "EXCITED" then Some(EXCITED)
    else if s == "CONFUSED" then Some(CONFUSED)
    else if s == "DISGUSTED" then Some(DISGUSTED)
    else if s == "SURPRISED" then Some(SURPRISED)
    else if s == "PLAYFUL" then Some(PLAYFUL)
    else if s == "NERVOUS" then Some(NERVOUS)
    else None
  }

  function RelationOfName(s: string): Option<Relation>
  {
    if s == "NEUTRAL" then Some(NEUTRAL)
    else if s == "FRIENDLY" then Some(FRIENDLY)
    else if s == "HOSTILE" then Some(HOSTILE)
    else if s == "ROMANTIC" then Some(ROMANTIC)
    else if s == "FAMILIAL" then Some(FAMILIAL)
    else if s == "PROFESSIONAL" then Some(PROFESSIONAL)
    else None
  }

  lemma AttitudesInjective()
    ensures Injective(Attitudes, AttitudeName, AttitudeValue)
  {
    forall a: Attitude ensures AttitudeOfName(AttitudeName(a)) == Some(a) {}
    forall i, j | 0 <= i < j < |Attitudes|
      ensures AttitudeName(Attitudes[i]) != AttitudeName(Attitudes[j])
      ensures AttitudeValue(Attitudes[i]) != AttitudeValue(Attitudes[j])
    {
      assert AttitudeValue(Attitudes[i]) == i && AttitudeValue(Attitudes[j]) == j;
      assert AttitudeOfName(AttitudeName(Attitudes[i])) != AttitudeOfName(AttitudeName(Attitudes[j]));
    }
  }

  lemma RelationsInjective()
    ensures Injective(Relations, RelationName, RelationValue)
  {
    forall r: Relation ensures RelationOfName(RelationName(r)) == Some(r) {}
    forall i, j | 0 <= i < j < |Relations|
      ensures RelationName(Relations[i]) != RelationName(Relations[j])
      ensures RelationValue(Relations[i]) != RelationValue(Relations[j])
    {
      assert RelationValue(Relations[i]) == i && RelationValue(Relations[j]) == j;
      assert RelationOfName(RelationName(Relations[i])) != RelationOfName(RelationName(Relations[j]));
    }
  }

  /** Every attitude is found again from its exact name and from its integer value. */
  lemma AttitudeRoundTrip(a: Attitude)
    ensures GetAttitude(Str(AttitudeName(a))) == Ok(a)
    ensures GetAttitude(Int(AttitudeValue(a))) == Ok(a)
  {
    AttitudesInjective();
    var k := AttitudeValue(a);
    assert 0 <= k < |Attitudes| && Attitudes[k] == a;
    ResolveRoundTrip(Attitudes, AttitudeName, AttitudeValue, k);
  }

  /** Every relation is found again from its exact name and from its integer value. */
  lemma RelationRoundTrip(r: Relation)
    ensures GetRelation(Str(RelationName(r))) == Ok(r)
    ensures GetRelation(Int(RelationValue(r))) == Ok(r)
  {
    RelationsInjective();
    var k := RelationValue(r);
    assert 0 <= k < |Relations| && Relations[k] == r;
    ResolveRoundTrip(Relations, RelationName, RelationValue, k);
  }

  /** Every name is non-empty and consists of upper-case letters, so a string
      with no upper-case letter (lower-case text, digits, the empty string)
      never resolves, for either enumeration. */
  lemma NoUpperNeverResolves(s: string)
    requires forall c :: c in s ==> !IsUpper(c)
    ensures GetAttitude(Str(s)) == Err(InvalidEnumValue)
    ensures GetRelation(Str(s)) == Err(InvalidEnumValue)
  {
    forall j | 0 <= j < |Attitudes| ensures !Matches(AttitudeName, AttitudeValue, Attitudes[j], Str(s)) {
      var n := AttitudeName(Attitudes[j]);
      assert n != s by { assert IsUpper(n[0]); assert |s| == 0 || s[0] in s; }
    }
    forall j | 0 <= j < |Relations| ensures !Matches(RelationName, RelationValue, Relations[j], Str(s)) {
      var n := RelationName(Relations[j]);
      assert n != s by { assert IsUpper(n[0]); assert |s| == 0 || s[0] in s; }
    }
  }

  /** The token `adjust_state` extracts is lower-cased and stripped, so it
      can never select an attitude. */
  lemma LoweredTokenNeverResolves(piece: string)
    ensures GetAttitude(Str(Strip(Lower(piece)))) == Err(InvalidEnumValue)
  {
    LowerStripNoUpper(piece);
    NoUpperNeverResolves(Strip(Lower(piece)));
  }

  // ---------------------------------------------------------------------
  // CharacterState
  // ---------------------------------------------------------------------

  /** An optional attitude and an insertion-ordered map from character names to relations. */
  datatype CharState = CharState(attitude: Option<Attitude>, relations: Entries<string, Relation>)

  ghost predicate WellFormed(s: CharState)
  {
    Distinct(s.relations)
  }

  /** The state a new `Character` starts with: `CharacterState()`. */
  const InitialState: CharState := CharState(Some(CALM), [])

  /** The relation dictionary of `CharacterState.__init__`: entries whose value
      is None are dropped, the others are resolved. */
  function ResolveRelations(rs: Entries<string, Option<Key<Relation>>>): (r: Result<Entries<string, Relation>>)
    ensures r.Ok? && Distinct(rs) ==> Distinct(r.value)
    ensures r.Ok? ==> forall k :: k in Keys(r.value) ==> k in Keys(rs)
    decreases |rs|
  {
    if |rs| == 0 then Ok([])
    else
      match ResolveRelations(rs[1..])
      case Err(e) => Err(e)
      case Ok(rest) =>
        assert Keys(rs) == [rs[0].0] + Keys(rs[1..]);
        match rs[0].1
        case None => Ok(rest)
        case Some(key) =>
          match GetRelation(key)
          case Err(e) => Err(e)
          case Ok(rel) =>
            assert Keys([(rs[0].0, rel)] + rest) == [rs[0].0] + Keys(rest);
            assert Distinct(rs) ==> rs[0].0 !in Keys(rs[1..]) && Distinct(rs[1..]);
            assert Distinct(rs) ==> Distinct([(rs[0].0, rel)] + rest) by {
              if Distinct(rs) { DistinctCons(rs[0].0, rel, rest); }
            }
            Ok([(rs[0].0, rel)] + rest)
  }

  /** `CharacterState(attitude, relations)`. */
  function MakeState(attitude: Option<Key<Attitude>>, rs: Entries<string, Option<Key<Relation>>>): Result<CharState>
  {
    match ResolveRelations(rs)
    case Err(e) => Err(e)
    case Ok(rels) =>
      match attitude
      case None => Ok(CharState(None, rels))
      case Some(key) =>
        match GetAttitude(key)
        case Err(e) => Err(e)
        case Ok(a) => Ok(CharState(Some(a), rels))
  }

  /** Entry by entry: a None value is dropped, a resolvable value is kept
      resolved, and an unresolvable one fails the whole construction. */
  lemma {:induction false} ResolveRelationsGet(rs: Entries<string, Option<Key<Relation>>>, k: string)
    requires Distinct(rs)
    ensures ResolveRelations(rs).Ok? ==>
      (Get(ResolveRelations(rs).value, k).Some? <==> Get(rs, k).Some? && Get(rs, k).value.Some?)
    ensures ResolveRelations(rs).Ok? && Get(rs, k).Some? && Get(rs, k).value.Some? ==>
      GetRelation(Get(rs, k).value.value) == Ok(Get(ResolveRelations(rs).value, k).value)
    ensures Get(rs, k).Some? && Get(rs, k).value.Some? && GetRelation(Get(rs, k).value.value).Err? ==>
      ResolveRelations(rs).Err?
    decreases |rs|
  {
    if |rs| > 0 {
      assert Distinct(rs[1..]);
      assert Keys(rs) == [rs[0].0] + Keys(rs[1..]);
      ResolveRelationsGet(rs[1..], k);
      if rs[0].0 == k {
        assert k !in Keys(rs[1..]);
        var r := ResolveRelations(rs[1..]);
        if r.Ok? { assert k !in Keys(r.value); }
      }
    }
  }

  /** The relations of a state as `load` reads them: each relation by its name. */
  function NamedRelations(rels: Entries<string, Relation>): Entries<string, Option<Key<Relation>>>
  {
    if |rels| == 0 then [] else [(rels[0].0, Some(Str(RelationName(rels[0].1))))] + NamedRelations(rels[1..])
  }

  /** Resolving the names of some relations gives those relations back. */
  lemma {:induction false} ResolveNamed(rels: Entries<string, Relation>)
    ensures ResolveRelations(NamedRelations(rels)) == Ok(rels)
    decreases |rels|
  {
    if |rels| > 0 {
      var named := NamedRelations(rels);
      assert named[0] == (rels[0].0, Some(Str(RelationName(rels[0].1))));
      assert named[1..] == NamedRelations(rels[1..]);
      ResolveNamed(rels[1..]);
      RelationRoundTrip(rels[0].1);
      assert ResolveRelations(named) == Ok([(rels[0].0, rels[0].1)] + rels[1..]);
      assert [(rels[0].0, rels[0].1)] + rels[1..] == rels;
    }
  }

  /** A state built from the names of its attitude and of its relations is
      that state: `CharacterState` inverts naming. */
  lemma MakeStateRoundTrip(s: CharState)
    ensures MakeState(if s.attitude.None? then None else Some(Str(AttitudeName(s.attitude.value))), NamedRelations(s.relations)) == Ok(s)
  {
    ResolveNamed(s.relations);
    if s.attitude.Some? {
      AttitudeRoundTrip(s.attitude.value);
    }
  }

  /** `get_relation`: the stored relation, NEUTRAL when there is none. */
  function RelationTo(s: CharState, other: string): (r: Relation)
    ensures other !in Keys(s.relations) ==> r == NEUTRAL
    ensures Get(s.relations, other).Some? ==> r == Get(s.relations, other).value
  {
    match Get(s.relations, other)
    case None => NEUTRAL
    case Some(rel) => rel
  }

  /** `set_relation` then `get_relation`: the relation just stored is read
      back, and every other character's relation is as before. */
  lemma RelationToPut(s: CharState, other: string, r: Relation, q: string)
    ensures RelationTo(s.(relations := Put(s.relations, other, r)), q) == if q == other then r else RelationTo(s, q)
  {
    PutGet(s.relations, other, r, q);
  }

  /** `update_state` as a function of the two states. */
  function Merge(s: CharState, delta: CharState): CharState
  {
    CharState(if delta.attitude.Some? then delta.attitude else s.attitude,
              PutAll(s.relations, delta.relations))
  }

  /** The merge overwrites the attitude only when the delta has one, takes
      the relation of every character in the delta, and keeps every other
      relation. */
  lemma MergeSemantics(s: CharState, delta: CharState, other: string)
    requires WellFormed(delta)
    ensures Merge(s, delta).attitude == if delta.attitude.Some? then delta.attitude else s.attitude
    ensures Get(Merge(s, delta).relations, other) ==
      if other in Keys(delta.relations) then Get(delta.relations, other) else Get(s.relations, other)
  {
    PutAllGet(s.relations, delta.relations, other);
  }

  /** The merge deletes no relation: the old keys stay first, in their order,
      and the keys afterwards are those of both states. */
  lemma MergeKeepsKeys(s: CharState, delta: CharState, other: string)
    ensures |Merge(s, delta).relations| >= |s.relations|
    ensures Keys(Merge(s, delta).relations)[..|s.relations|] == Keys(s.relations)
    ensures other in Keys(Merge(s, delta).relations) <==>
      other in Keys(s.relations) || other in Keys(delta.relations)
    ensures WellFormed(s) ==> WellFormed(Merge(s, delta))
  {
    PutAllKeys(s.relations, delta.relations);
    PutAllMembers(s.relations, delta.relations, other);
    if WellFormed(s) { PutAllDistinct(s.relations, delta.relations); }
  }

  /** Merging a state into itself, as `update_state(adjust_state(...))` does, changes nothing. */
  lemma MergeSelf(s: CharState)
    requires WellFormed(s)
    ensures Merge(s, s) == s
  {
    PutAllSelf(s.relations);
  }

  // ---------------------------------------------------------------------
  // Descriptions and oracle responses
  // ---------------------------------------------------------------------

  function RelationPhrases(rels: Entries<string, Relation>, relevant: Option<seq<string>>): seq<string>
  {
    if |rels| == 0 then []
    else
      var rest := RelationPhrases(rels[1..], relevant);
      if relevant.None? || rels[0].0 in relevant.value
      then [Lower(RelationName(rels[0].1)) + " towards " + rels[0].0] + rest
      else rest
  }

  /** With no `relevant` filter there is one phrase per relation, in
      insertion order. */
  lemma {:induction false} RelationPhrasesAll(rels: Entries<string, Relation>)
    ensures |RelationPhrases(rels, None)| == |rels|
    ensures forall k :: 0 <= k < |rels| ==>
      RelationPhrases(rels, None)[k] == Lower(RelationName(rels[k].1)) + " towards " + rels[k].0
    decreases |rels|
  {
    if |rels| > 0 {
      RelationPhrasesAll(rels[1..]);
      forall k | 1 <= k < |rels| ensures RelationPhrases(rels, None)[k] == RelationPhrases(rels[1..], None)[k - 1] {}
    }
  }

  /** `get_state_desc`: "<name> is feeling <attitude> and feels <relation>
      towards <other>, ..." over the relations in insertion order, restricted
      to `relevant` when it is given. It fails in Python on an absent attitude. */
  function StateDesc(name: string, s: CharState, relevant: Option<seq<string>>): (r: string)
    requires s.attitude.Some?
    ensures StartsWith(r, name + " is feeling " + Lower(AttitudeName(s.attitude.value)) + " and feels ")
    ensures |r| > 0
  {
    var head := name + " is feeling " + Lower(AttitudeName(s.attitude.value)) + " and feels ";
    var r := head + Join(RelationPhrases(s.relations, relevant), ", ");
    assert r[..|head|] == head;
    r
  }

  /** What `translate` keeps of the oracle's answer: the text after the last
      "<name>:" marker, stripped. */
  function TranslateReply(name: string, res: string): string
  {
    Strip(Last(Split(res, name + ":")))
  }

  /** An answer in the requested format "<name>: <text>" yields exactly the text. */
  lemma TranslateFormatted(name: string, t: string)
    requires Clean(t) && !Contains([' '] + t, name + ":")
    ensures TranslateReply(name, name + ": " + t) == t
  {
    var marker := name + ":";
    var res := name + ": " + t;
    assert res == marker + ([' '] + t);
    assert OccursAt(res, marker, 0);
    var f := Find(res, marker);
    assert f == Some(0);
    assert res[|marker|..] == [' '] + t;
    assert Split(res, marker) == [res[..0]] + Split([' '] + t, marker);
    assert Split([' '] + t, marker) == [[' '] + t];
    StripAfterSpace(t);
  }

  const AttitudeMarker: string := "New Attitude:"
  const RelationMarker: string := "New Relationship:"
  /** What `adjust_state` puts into the conversation when the first answer is not used. */
  const NoAttitude: string := "New Attitude: none"

  // ---------------------------------------------------------------------
  // Character
  // ---------------------------------------------------------------------

  class Character {
    const name: string
    const bio: string
    var state: CharState

    constructor (name: string, bio: string)
      ensures this.name == name && this.bio == bio && state == InitialState
    {
      this.name := name;
      this.bio := bio;
      state := InitialState;
    }

    /** `set_attitude`: None leaves the state as it is; a value that does not
        resolve fails and leaves it as it is too. */
    method SetAttitude(value: Option<Key<Attitude>>) returns (r: Outcome)
      modifies this
      ensures value.None? ==> r == Pass && state == old(state)
      ensures value.Some? && GetAttitude(value.value).Ok? ==>
        r == Pass && state == old(state).(attitude := Some(GetAttitude(value.value).value))
      ensures value.Some? && GetAttitude(value.value).Err? ==>
        r == Fail(InvalidEnumValue) && state == old(state)
    {
      r := Pass;
      if value.Some? {
        var a := GetAttitude(value.value);
        if a.Ok? {
          state := state.(attitude := Some(a.value));
        } else {
          r := Fail(a.error);
        }
      }
    }

    /** `set_relation`: None leaves the state as it is; otherwise the resolved
        relation is stored under `other` (kept in place if already there). */
    method SetRelation(other: string, value: Option<Key<Relation>>) returns (r: Outcome)
      modifies this
      ensures value.None? ==> r == Pass && state == old(state)
      ensures value.Some? && GetRelation(value.value).Ok? ==>
        r == Pass && state == old(state).(relations := Put(old(state).relations, other, GetRelation(value.value).value))
      ensures value.Some? && GetRelation(value.value).Err? ==>
        r == Fail(InvalidEnumValue) && state == old(state)
    {
      r := Pass;
      if value.Some? {
        var rel := GetRelation(value.value);
        if rel.Ok? {
          state := state.(relations := Put(state.relations, other, rel.value));
        } else {
          r := Fail(rel.error);
        }
      }
    }

    /** `update_state`: the attitude when the delta has one, then every relation of the delta in order. */
    method UpdateState(delta: CharState)
      modifies this
      ensures state == Merge(old(state), delta)
    {
      if delta.attitude.Some? {
        state := state.(attitude := delta.attitude);
      }
      ghost var start := state;
      var i := 0;
      while i < |delta.relations|
        invariant 0 <= i <= |delta.relations|
        invariant state == start.(relations := PutAll(start.relations, delta.relations[..i]))
      {
        var (other, rel) := delta.relations[i];
        var _ := SetRelation(other, Some(Member(rel)));
        PutAllSnoc(start.relations, delta.relations, i);
        i := i + 1;
      }
      assert delta.relations[..i] == delta.relations;
    }

    /** `translate`: one oracle call, of which the text after "<name>:" is kept.
        The state is not touched. */
    method Translate(oracle: Oracle) returns (text: string)
      modifies oracle
      ensures oracle.calls == old(oracle.calls) + 1
      ensures text == TranslateReply(name, oracle.stream(old(oracle.calls)))
    {
      var res := oracle.Ask();
      text := TranslateReply(name, res);
    }

    /** `adjust_state`: two oracle calls, whose tokens are lower-cased before
        they reach `set_attitude`. No token can resolve, so the state never
        changes, the first answer is always replaced by "New Attitude: none",
        and the second answer (the relationship) never reaches the relations.
        Returns the resulting state and the assistant message put into the
        conversation after the first call. */
    method AdjustState(oracle: Oracle) returns (s: CharState, reply: string)
      modifies this, oracle
      ensures state == old(state) && s == state
      ensures reply == NoAttitude
      ensures oracle.calls == old(oracle.calls) + 2
    {
      var res := oracle.Ask();
      var success := true;
      if StartsWith(res, AttitudeMarker) {
        assert Contains(res, AttitudeMarker) by { FindSpec(res, AttitudeMarker); assert OccursAt(res, AttitudeMarker, 0); }
        SplitHasSecond(res, AttitudeMarker);
        var token := Strip(Lower(Split(res, AttitudeMarker)[1]));
        LoweredTokenNeverResolves(Split(res, AttitudeMarker)[1]);
        var o := SetAttitude(Some(Str(token)));
        success := o.Pass?;
      } else {
        success := false;
      }
      if !success {
        res := NoAttitude;
      }
      reply := res;

      var res2 := oracle.Ask();
      var parts := Split(res2, RelationMarker);
      if |parts| >= 2 {
        // the relationship token is routed to the attitude, as `adjust_state` does
        LoweredTokenNeverResolves(parts[1]);
        var _ := SetAttitude(Some(Str(Strip(Lower(parts[1])))));
      }
      s := state;
    }
  }
}
