/**
 Replacing nondeterministic nodes by literals in one walk: the n-th such node in walk order gets the next value of
 the pool it draws from, and a second run finds nothing to replace.
 */
module Materializer {
  import opened Common
  import opened SnapshotIntegers

  /** What a nondeterministic name stands for. */
  datatype Ask = Now | NowUtc | Now64 | Today | Yesterday | Rand32 | Rand64 | Unit | Uuid | Unsupported

  datatype Volatile = Volatile(name: string, ask: Ask, arguments: bool)

  /** A decoded statement: an object's fields stand in the byte order of their keys. Given is a literal put in. */
  datatype Tree = Leaf(text: string) | Branch(kids: seq<Tree>) | Ask(node: Volatile) | Given(sql: string)

  /** A Float64 input and its shortest text. */
  datatype Float = Finite(value: real, text: string) | NotFinite

  /** The caller's clock and pools. */
  datatype Inputs = Inputs(nowUnixNs: Option<int>, randoms: seq<nat>, floats: seq<Float>, uuids: seq<string>)

  datatype Error = InputMissing | Unsupported | InvalidInput

  datatype Replacement = Replacement(name: string, ordinal: nat, sql: string, valueType: string)

  const NANOS_PER_SECOND := 1_000_000_000
  const NANOS_PER_MILLI := 1_000_000
  const SECONDS_PER_DAY := 86_400
  const MAX_UINT32 := 0xFFFF_FFFF
  const TWO_TO_THE_32 := 0x1_0000_0000

  /** Go's division: toward zero. */
  function Quotient(a: int, b: int): int
    requires b > 0
  {
    if a >= 0 then a / b else -(-a / b)
  }

  function Lower(s: string): (r: string)
    ensures |r| == |s|
  {
    seq(|s|, i requires 0 <= i < |s| => if 'A' <= s[i] <= 'Z' then s[i] - 'A' + 'a' else s[i])
  }

  /** isUUID. */
  predicate IsUuid(s: string)
  {
    |s| == 36 && forall i :: 0 <= i < 36 ==>
      if i in {8, 13, 18, 23} then s[i] == '-' else '0' <= s[i] <= '9' || 'a' <= s[i] <= 'f'
  }

  function DateText(seconds: int): string
  {
    "toDate(toDateTime(" + DecimalString(seconds) + "))"
  }

  function FloatText(f: Float): string
    requires f.Finite?
  {
    if f.value == 0.0 then "0" else f.text
  }

  // ---------------------------------------------------------------------------------------
  // One node

  /** The fields of the materializer. */
  datatype State = State(random: nat, float: nat, uuid: nat, replaced: seq<Replacement>)

  const START := State(0, 0, 0, [])

  /** The literal and its type, and how many values of each pool were used by then. */
  datatype Drawn = Drawn(sql: string, valueType: string, random: nat, float: nat, uuid: nat)

  function Draw(v: Volatile, random: nat, float: nat, uuid: nat, x: Inputs): Result<Drawn, Error>
  {
    if v.arguments then Err(Error.Unsupported)
    else
      match v.ask
      case Unsupported => Err(Error.Unsupported)
      case Rand32 | Rand64 =>
        if random >= |x.randoms| then Err(InputMissing)
        else if v.ask.Rand32? && x.randoms[random] > MAX_UINT32 then Err(InvalidInput)
        else Ok(Drawn(DigitString(x.randoms[random]), if v.ask.Rand32? then "UInt32" else "UInt64", random + 1, float, uuid))
      case Unit =>
        if float >= |x.floats| then Err(InputMissing)
        else if x.floats[float].NotFinite? || !(0.0 <= x.floats[float].value < 1.0) then Err(InvalidInput)
        else Ok(Drawn("toFloat64(" + FloatText(x.floats[float]) + ")", "Float64", random, float + 1, uuid))
      case Uuid =>
        if uuid >= |x.uuids| then Err(InputMissing)
        else if !IsUuid(Lower(x.uuids[uuid])) then Err(InvalidInput)
        else Ok(Drawn("toUUID('" + Lower(x.uuids[uuid]) + "')", "UUID", random, float, uuid + 1))
      case Now | NowUtc | Now64 | Today | Yesterday =>
        if x.nowUnixNs.None? then Err(InputMissing) else Ok(Clock(v.ask, x.nowUnixNs.value, random, float, uuid))
  }

  function Clock(ask: Ask, ns: int, random: nat, float: nat, uuid: nat): Drawn
  {
    var seconds := Quotient(ns, NANOS_PER_SECOND);
    match ask
    case NowUtc => Drawn("toDateTime(" + DecimalString(seconds) + ", 'UTC')", "DateTime", random, float, uuid)
    case Now64 =>
      Drawn("fromUnixTimestamp64Milli(" + DecimalString(Quotient(ns, NANOS_PER_MILLI)) + ")", "DateTime64(3)", random, float, uuid)
    case Today => Drawn(DateText(seconds), "Date", random, float, uuid)
    case Yesterday => Drawn(DateText(seconds - SECONDS_PER_DAY), "Date", random, float, uuid)
    case _ => Drawn("toDateTime(" + DecimalString(seconds) + ")", "DateTime", random, float, uuid)
  }

  function Record(v: Volatile, ordinal: nat, d: Drawn): Replacement
  {
    Replacement(v.name, ordinal % TWO_TO_THE_32, d.sql, d.valueType)
  }

  /** One replacement. */
  function Step(v: Volatile, st: State, x: Inputs): Result<(string, State), Error>
  {
    var d :- Draw(v, st.random, st.float, st.uuid, x);
    Ok((d.sql, State(d.random, d.float, d.uuid, st.replaced + [Record(v, |st.replaced|, d)])))
  }

  // ---------------------------------------------------------------------------------------
  // The walk

  function Walked(n: Tree, st: State, x: Inputs): Result<(Tree, State), Error>
    decreases n, 1
  {
    match n
    case Leaf(_) => Ok((n, st))
    case Given(_) => Ok((n, st))
    case Branch(kids) =>
      var (done, s) :- WalkedKids(n, kids, |kids|, st, x);
      Ok((Branch(done), s))
    case Ask(v) =>
      var (sql, s) :- Step(v, st, x);
      Ok((Given(sql), s))
  }

  /** The first m of the node's kids. */
  function WalkedKids(n: Tree, kids: seq<Tree>, m: nat, st: State, x: Inputs): (r: Result<(seq<Tree>, State), Error>)
    requires n == Branch(kids) && m <= |kids|
    ensures r.Ok? ==> |r.value.0| == m
    decreases n, 0, m
  {
    if m == 0 then Ok(([], st))
    else
      var (before, s) :- WalkedKids(n, kids, m - 1, st, x);
      var (kid, t) :- Walked(kids[m - 1], s, x);
      Ok((before + [kid], t))
  }

  class Materializer {
    const inputs: Inputs
    var randomIndex: nat
    var randomFloatIndex: nat
    var uuidIndex: nat
    var replacements: seq<Replacement>

    constructor (inputs: Inputs)
      ensures this.inputs == inputs && Now() == START
    {
      this.inputs := inputs;
      randomIndex, randomFloatIndex, uuidIndex, replacements := 0, 0, 0, [];
    }

    function Now(): State
      reads this
    {
      State(randomIndex, randomFloatIndex, uuidIndex, replacements)
    }

    /** nextRandomUint64, materializeRandomFloat64, materializeUUID and the clock, by what is asked for. */
    method Value(v: Volatile) returns (r: Result<(string, string), Error>)
      modifies this`randomIndex, this`randomFloatIndex, this`uuidIndex
      ensures var d := Draw(v, old(randomIndex), old(randomFloatIndex), old(uuidIndex), inputs);
        if d.Ok? then r == Ok((d.value.sql, d.value.valueType)) && Now() == State(d.value.random, d.value.float, d.value.uuid, replacements)
        else r == Err(d.error)
    {
      if v.ask.Unsupported? || v.arguments {
        return Err(Error.Unsupported);
      }
      if v.ask.Rand32? || v.ask.Rand64? {
        if randomIndex >= |inputs.randoms| {
          return Err(InputMissing);
        }
        var value := inputs.randoms[randomIndex];
        randomIndex := randomIndex + 1;
        if v.ask.Rand32? && value > MAX_UINT32 {
          return Err(InvalidInput);
        }
        return Ok((DigitString(value), if v.ask.Rand32? then "UInt32" else "UInt64"));
      }
      if v.ask.Unit? {
        if randomFloatIndex >= |inputs.floats| {
          return Err(InputMissing);
        }
        var value := inputs.floats[randomFloatIndex];
        randomFloatIndex := randomFloatIndex + 1;
        if value.NotFinite? || value.value < 0.0 || value.value >= 1.0 {
          return Err(InvalidInput);
        }
        return Ok(("toFloat64(" + FloatText(value) + ")", "Float64"));
      }
      if v.ask.Uuid? {
        if uuidIndex >= |inputs.uuids| {
          return Err(InputMissing);
        }
        var value := Lower(inputs.uuids[uuidIndex]);
        uuidIndex := uuidIndex + 1;
        if !IsUuid(value) {
          return Err(InvalidInput);
        }
        return Ok(("toUUID('" + value + "')", "UUID"));
      }
      if inputs.nowUnixNs.None? {
        return Err(InputMissing);
      }
      var d := Clock(v.ask, inputs.nowUnixNs.value, randomIndex, randomFloatIndex, uuidIndex);
      r := Ok((d.sql, d.valueType));
    }

    /** materializer.walk. */
    method Walk(n: Tree) returns (r: Result<Tree, Error>)
      modifies this
      ensures var w := Walked(n, old(Now()), inputs);
        if w.Ok? then r == Ok(w.value.0) && Now() == w.value.1 else r == Err(w.error)
      decreases n
    {
      match n
      case Leaf(_) => r := Ok(n);
      case Given(_) => r := Ok(n);
      case Ask(v) =>
        var drawn := Value(v);
        if drawn.Err? {
          return Err(drawn.error);
        }
        replacements := replacements + [Replacement(v.name, |replacements| % TWO_TO_THE_32, drawn.value.0, drawn.value.1)];
        r := Ok(Given(drawn.value.0));
      case Branch(kids) =>
        ghost var start := Now();
        var done: seq<Tree> := [];
        var i := 0;
        while i < |kids|
          invariant 0 <= i <= |kids|
          invariant WalkedKids(n, kids, i, start, inputs) == Ok((done, Now()))
        {
          var kid := Walk(kids[i]);
          if kid.Err? {
            KidFails(n, kids, i + 1, |kids|, start, inputs);
            return Err(kid.error);
          }
          done := done + [kid.value];
          i := i + 1;
        }
        r := Ok(Branch(done));
    }
  }

  lemma {:induction false} KidFails(n: Tree, kids: seq<Tree>, m: nat, end: nat, st: State, x: Inputs)
    requires n == Branch(kids) && m <= end <= |kids| && WalkedKids(n, kids, m, st, x).Err?
    ensures WalkedKids(n, kids, end, st, x) == Err(WalkedKids(n, kids, m, st, x).error)
    decreases end
  {
    hide Walked;
    if m < end {
      KidFails(n, kids, m, end - 1, st, x);
    }
  }

  // ---------------------------------------------------------------------------------------
  // What the walk did, place by place

  /** The places the walk cares about, in its order: a node to replace, or a literal put in before. */
  function Places(n: Tree): seq<Tree>
    decreases n, 1
  {
    match n
    case Leaf(_) => []
    case Branch(kids) => KidPlaces(n, kids, |kids|)
    case _ => [n]
  }

  function KidPlaces(n: Tree, kids: seq<Tree>, m: nat): seq<Tree>
    requires n == Branch(kids) && m <= |kids|
    decreases n, 0, m
  {
    if m == 0 then [] else KidPlaces(n, kids, m - 1) + Places(kids[m - 1])
  }

  /** Filling one more place. */
  function Appended(before: Result<(seq<Tree>, State), Error>, last: Tree, x: Inputs): Result<(seq<Tree>, State), Error>
  {
    var (out, s) :- before;
    if last.Ask? then
      var (sql, t) :- Step(last.node, s, x);
      Ok((out + [Given(sql)], t))
    else Ok((out + [last], s))
  }

  /** The places p, filled, before those of a filling. */
  function After(p: seq<Tree>, f: Result<(seq<Tree>, State), Error>): Result<(seq<Tree>, State), Error>
  {
    var (q, t) :- f;
    Ok((p + q, t))
  }

  lemma AppendOver(p: seq<Tree>, f: Result<(seq<Tree>, State), Error>, last: Tree, x: Inputs)
    ensures Appended(After(p, f), last, x) == After(p, Appended(f, last, x))
  {
    hide Step;
    if f.Ok? {
      var (q, t) := f.value;
      if last.Ask? {
        var w := Step(last.node, t, x);
        if w.Ok? {
          assert (p + q) + [Given(w.value.0)] == p + (q + [Given(w.value.0)]);
        }
      } else {
        assert (p + q) + [last] == p + (q + [last]);
      }
    }
  }

  /** Filling a list of places from the left. */
  function Filled(places: seq<Tree>, st: State, x: Inputs): Result<(seq<Tree>, State), Error>
  {
    if places == [] then Ok(([], st))
    else
      Appended(Filled(places[..|places| - 1], st, x), places[|places| - 1], x)
  }

  lemma {:induction false} FilledOver(a: seq<Tree>, b: seq<Tree>, st: State, x: Inputs)
    ensures Filled(a + b, st, x) ==
      match Filled(a, st, x)
      case Err(e) => Err(e)
      case Ok((p, s)) => After(p, Filled(b, s, x))
    decreases |b|
  {
    hide Step;
    if b == [] {
      assert a + b == a;
      var none: seq<Tree> := [];
      if Filled(a, st, x).Ok? {
        assert Filled(a, st, x).value.0 + none == Filled(a, st, x).value.0;
      }
    } else {
      var c := a + b;
      assert c[..|c| - 1] == a + b[..|b| - 1] && c[|c| - 1] == b[|b| - 1];
      FilledOver(a, b[..|b| - 1], st, x);
      if Filled(a, st, x).Ok? {
        var (p, s) := Filled(a, st, x).value;
        AppendOver(p, Filled(b[..|b| - 1], s, x), b[|b| - 1], x);
      }
    }
  }

  /** A walk agrees with a filling: both fail alike, or leave those places and that state. */
  predicate Agrees(w: Result<(Tree, State), Error>, f: Result<(seq<Tree>, State), Error>)
  {
    if w.Ok? then f == Ok((Places(w.value.0), w.value.1)) else f == Err(w.error)
  }

  /** The walk over a tree is the left-to-right filling of its places. */
  lemma {:induction false} WalkIsFilling(n: Tree, st: State, x: Inputs)
    ensures Agrees(Walked(n, st, x), Filled(Places(n), st, x))
    decreases n, 1
  {
    hide Filled, Step;
    match n
    case Leaf(_) => NothingFilled(st, x);
    case Given(sql) => OnePlace(n, st, x);
    case Ask(v) => OnePlace(n, st, x);
    case Branch(kids) =>
      KidsAreFilling(n, kids, |kids|, st, x);
      var w := WalkedKids(n, kids, |kids|, st, x);
      if w.Ok? {
        assert Places(Branch(w.value.0)) == KidPlaces(Branch(w.value.0), w.value.0, |w.value.0|);
      }
  }

  lemma OnePlace(p: Tree, st: State, x: Inputs)
    ensures Filled([p], st, x) ==
      if p.Ask? then
        match Step(p.node, st, x)
        case Err(e) => Err(e)
        case Ok((sql, s)) => Ok(([Given(sql)], s))
      else Ok(([p], st))
  {
    hide Step;
    var none: seq<Tree> := [];
    assert [p][..0] == none && Filled(none, st, x) == Ok((none, st));
    assert none + [p] == [p];
    assert forall sql :: none + [Given(sql)] == [Given(sql)];
  }

  lemma {:induction false} KidsAreFilling(n: Tree, kids: seq<Tree>, m: nat, st: State, x: Inputs)
    requires n == Branch(kids) && m <= |kids|
    ensures var w := WalkedKids(n, kids, m, st, x);
      var f := Filled(KidPlaces(n, kids, m), st, x);
      if w.Ok? then f == Ok((KidPlaces(Branch(w.value.0), w.value.0, m), w.value.1)) else f == Err(w.error)
    decreases n, 0, m
  {
    hide Walked, Places, Filled;
    if m == 0 {
      assert Filled([], st, x) == Ok(([], st)) by { NothingFilled(st, x); }
    } else {
      KidsAreFilling(n, kids, m - 1, st, x);
      FilledOver(KidPlaces(n, kids, m - 1), Places(kids[m - 1]), st, x);
      var w := WalkedKids(n, kids, m - 1, st, x);
      if w.Ok? {
        var (before, s) := w.value;
        WalkIsFilling(kids[m - 1], s, x);
        var k := Walked(kids[m - 1], s, x);
        if k.Ok? {
          var all := before + [k.value.0];
          KidPlacesLocal(Branch(all), all, Branch(before), before, m - 1);
        }
      }
    }
  }

  lemma NothingFilled(st: State, x: Inputs)
    ensures Filled([], st, x) == Ok(([], st))
  {
  }

  lemma {:induction false} KidPlacesLocal(n: Tree, kids: seq<Tree>, n': Tree, kids': seq<Tree>, m: nat)
    requires n == Branch(kids) && n' == Branch(kids') && m <= |kids| && m <= |kids'|
    requires forall i :: 0 <= i < m ==> kids[i] == kids'[i]
    ensures KidPlaces(n, kids, m) == KidPlaces(n', kids', m)
    decreases m
  {
    hide Places;
    if m > 0 {
      KidPlacesLocal(n, kids, n', kids', m - 1);
    }
  }

  // ---------------------------------------------------------------------------------------
  // Exactly which values go where

  /** The nodes before position i that draw from a pool. */
  function Uses(places: seq<Tree>, asks: set<Ask>): nat
  {
    if places == [] then 0
    else
      var last := places[|places| - 1];
      Uses(places[..|places| - 1], asks) + if last.Ask? && last.node.ask in asks then 1 else 0
  }

  const RANDOM := {Rand32, Rand64}
  const UNIT := {Unit}
  const UUID := {Uuid}

  /** All the nodes to replace before position i. */
  function Replaced(places: seq<Tree>): nat
  {
    if places == [] then 0 else Replaced(places[..|places| - 1]) + if places[|places| - 1].Ask? then 1 else 0
  }

  /** What the node at i draws: the first value of its pool that no node before it has used. */
  function DrawAt(places: seq<Tree>, i: nat, x: Inputs): Result<Drawn, Error>
    requires i < |places| && places[i].Ask?
  {
    Draw(places[i].node, Uses(places[..i], RANDOM), Uses(places[..i], UNIT), Uses(places[..i], UUID), x)
  }

  predicate Fed(places: seq<Tree>, i: nat, x: Inputs)
    requires i < |places|
  {
    places[i].Ask? ==> DrawAt(places, i, x).Ok?
  }

  function FilledPlace(places: seq<Tree>, i: nat, x: Inputs): Tree
    requires i < |places| && Fed(places, i, x)
  {
    if places[i].Ask? then Given(DrawAt(places, i, x).value.sql) else places[i]
  }

  /** The record of the node at i. */
  function RecordAt(places: seq<Tree>, i: nat, x: Inputs): Replacement
    requires i < |places| && places[i].Ask? && Fed(places, i, x)
  {
    Record(places[i].node, Replaced(places[..i]), DrawAt(places, i, x).value)
  }

  /** The records of the first n places. */
  function Records(places: seq<Tree>, n: nat, x: Inputs): (r: seq<Replacement>)
    requires n <= |places| && forall i :: 0 <= i < n ==> Fed(places, i, x)
    ensures |r| == Replaced(places[..n])
  {
    if n == 0 then []
    else
      assert places[..n][..n - 1] == places[..n - 1];
      Records(places, n - 1, x) + if places[n - 1].Ask? then [RecordAt(places, n - 1, x)] else []
  }

  /** Drawing moves the counter of the pool drawn from, and no other. */
  lemma DrawMoves(v: Volatile, random: nat, float: nat, uuid: nat, x: Inputs)
    requires Draw(v, random, float, uuid, x).Ok?
    ensures var d := Draw(v, random, float, uuid, x).value;
      && d.random == random + (if v.ask in RANDOM then 1 else 0)
      && d.float == float + (if v.ask in UNIT then 1 else 0)
      && d.uuid == uuid + (if v.ask in UUID then 1 else 0)
      && (v.ask in RANDOM ==> random < |x.randoms|) && (v.ask in UNIT ==> float < |x.floats|) && (v.ask in UUID ==> uuid < |x.uuids|)
  {
    hide DigitString, IsUuid;
  }

  /** Everything the walk has done after n places. */
  ghost predicate DoneUpTo(places: seq<Tree>, n: nat, f: Result<(seq<Tree>, State), Error>, x: Inputs)
    requires n <= |places|
  {
    && (f.Ok? <==> forall i :: 0 <= i < n ==> Fed(places, i, x))
    && (f.Ok? ==>
      var (out, s) := f.value;
      && s == State(Uses(places[..n], RANDOM), Uses(places[..n], UNIT), Uses(places[..n], UUID), Records(places, n, x))
      && |out| == n && forall i :: 0 <= i < n ==> out[i] == FilledPlace(places, i, x))
  }

  lemma {:induction false} FillUpTo(places: seq<Tree>, n: nat, x: Inputs)
    requires n <= |places|
    ensures DoneUpTo(places, n, Filled(places[..n], START, x), x)
    decreases n
  {
    if n == 0 {
      assert places[..0] == [];
    } else {
      FillUpTo(places, n - 1, x);
      assert places[..n][..n - 1] == places[..n - 1] && places[..n][n - 1] == places[n - 1];
      FillOne(places, n, x);
    }
  }

  lemma FillOne(places: seq<Tree>, n: nat, x: Inputs)
    requires 0 < n <= |places| && DoneUpTo(places, n - 1, Filled(places[..n - 1], START, x), x)
    ensures DoneUpTo(places, n, Filled(places[..n], START, x), x)
  {
    hide Step, Fed, FilledPlace, Records;
    assert places[..n][..n - 1] == places[..n - 1] && places[..n][n - 1] == places[n - 1];
    var f := Filled(places[..n - 1], START, x);
    if f.Ok? {
      var s := f.value.1;
      assert s == State(Uses(places[..n - 1], RANDOM), Uses(places[..n - 1], UNIT), Uses(places[..n - 1], UUID), Records(places, n - 1, x));
      FillNext(places, n, f.value.0, s, x);
    }
  }

  lemma FillNext(places: seq<Tree>, n: nat, before: seq<Tree>, s: State, x: Inputs)
    requires 0 < n <= |places| && forall i :: 0 <= i < n - 1 ==> Fed(places, i, x)
    requires s == State(Uses(places[..n - 1], RANDOM), Uses(places[..n - 1], UNIT), Uses(places[..n - 1], UUID), Records(places, n - 1, x))
    ensures var g := Appended(Ok((before, s)), places[n - 1], x);
      && (g.Ok? <==> Fed(places, n - 1, x))
      && (g.Ok? ==>
        && g.value.0 == before + [FilledPlace(places, n - 1, x)]
        && g.value.1 == State(Uses(places[..n], RANDOM), Uses(places[..n], UNIT), Uses(places[..n], UUID), Records(places, n, x)))
  {
    hide Draw, Record;
    var p := places[n - 1];
    assert places[..n][..n - 1] == places[..n - 1] && places[..n][n - 1] == p;
    if p.Ask? {
      var d := Draw(p.node, s.random, s.float, s.uuid, x);
      assert d == DrawAt(places, n - 1, x);
      if d.Ok? {
        DrawMoves(p.node, s.random, s.float, s.uuid, x);
        assert |s.replaced| == Replaced(places[..n - 1]);
      }
    } else {
      var none: seq<Replacement> := [];
      assert s.replaced + none == s.replaced;
    }
  }

  /** MaterializeNonDeterminism: the new statement and what was replaced. */
  function Materialized(n: Tree, x: Inputs): Result<(Tree, seq<Replacement>), Error>
  {
    var (out, s) :- Walked(n, START, x);
    Ok((if s.replaced == [] then n else out, s.replaced))
  }

  /**
   A run succeeds exactly when every node to replace, in walk order, finds an admissible value in its pool after those
   used before it. Then the records are those nodes in that order, numbered from 0, and each pool was used from its start.
   */
  lemma MaterializedExactly(n: Tree, x: Inputs)
    ensures var places := Places(n);
      && (Materialized(n, x).Ok? <==> forall i :: 0 <= i < |places| ==> Fed(places, i, x))
      && (Materialized(n, x).Ok? ==>
        var (out, replaced) := Materialized(n, x).value;
        && replaced == Records(places, |places|, x)
        && |Places(out)| == |places| && forall i :: 0 <= i < |places| ==> Places(out)[i] == FilledPlace(places, i, x))
  {
    hide Walked, Places, Filled, Step, Fed, Records, Uses, FilledPlace;
    var places := Places(n);
    assert places[..|places|] == places;
    WalkIsFilling(n, START, x);
    FillUpTo(places, |places|, x);
    var w := Walked(n, START, x);
    var f := Filled(places, START, x);
    assert Materialized(n, x).Ok? <==> w.Ok?;
    assert w.Ok? <==> f.Ok?;
    assert f.Ok? <==> forall i :: 0 <= i < |places| ==> Fed(places, i, x);
    if w.Ok? {
      assert f.value == (Places(w.value.0), w.value.1);
      if w.value.1.replaced == [] {
        NothingReplaced(places, |places|, x);
        assert forall i :: 0 <= i < |places| ==> Places(n)[i] == FilledPlace(places, i, x);
      } else {
        assert forall i :: 0 <= i < |places| ==> f.value.0[i] == FilledPlace(places, i, x);
      }
    }
  }

  /** Without records no place was filled. */
  lemma {:induction false} NothingReplaced(places: seq<Tree>, n: nat, x: Inputs)
    requires n <= |places| && (forall i :: 0 <= i < n ==> Fed(places, i, x)) && Records(places, n, x) == []
    ensures forall i :: 0 <= i < n ==> FilledPlace(places, i, x) == places[i]
    decreases n
  {
    hide Fed, Draw;
    if n > 0 {
      assert |Records(places, n - 1, x)| == 0;
      assert !places[n - 1].Ask?;
      NothingReplaced(places, n - 1, x);
    }
  }

  /** Every pool is used from its start and never past its end. */
  lemma {:induction false} PoolsSuffice(places: seq<Tree>, n: nat, x: Inputs)
    requires n <= |places| && forall i :: 0 <= i < n ==> Fed(places, i, x)
    ensures Uses(places[..n], RANDOM) <= |x.randoms| && Uses(places[..n], UNIT) <= |x.floats| && Uses(places[..n], UUID) <= |x.uuids|
    decreases n
  {
    hide Draw;
    if n > 0 {
      PoolsSuffice(places, n - 1, x);
      assert places[..n][..n - 1] == places[..n - 1] && places[..n][n - 1] == places[n - 1];
      if places[n - 1].Ask? {
        assert Fed(places, n - 1, x);
        DrawMoves(places[n - 1].node, Uses(places[..n - 1], RANDOM), Uses(places[..n - 1], UNIT), Uses(places[..n - 1], UUID), x);
      }
    }
  }

  /** The k-th record is numbered k. */
  lemma {:induction false} OrdinalsCount(places: seq<Tree>, n: nat, x: Inputs)
    requires n <= |places| && forall i :: 0 <= i < n ==> Fed(places, i, x)
    ensures forall k :: 0 <= k < |Records(places, n, x)| ==> Records(places, n, x)[k].ordinal == k % TWO_TO_THE_32
    decreases n
  {
    hide Fed, Draw;
    if n > 0 {
      OrdinalsCount(places, n - 1, x);
      assert Records(places, n, x) == Records(places, n - 1, x) + if places[n - 1].Ask? then [RecordAt(places, n - 1, x)] else [];
    }
  }

  /** A second run, on any inputs, replaces nothing and leaves the statement as it is. */
  lemma SecondRunIsIdle(n: Tree, x: Inputs, y: Inputs)
    requires Materialized(n, x).Ok?
    ensures var out := Materialized(n, x).value.0; Materialized(out, y) == Ok((out, []))
  {
    hide Walked, Records, Uses;
    MaterializedExactly(n, x);
    var out := Materialized(n, x).value.0;
    var again := Places(out);
    assert forall i :: 0 <= i < |again| ==> !again[i].Ask?;
    MaterializedExactly(out, y);
    NoRecords(again, |again|, y);
  }

  lemma {:induction false} NoRecords(places: seq<Tree>, n: nat, x: Inputs)
    requires n <= |places| && forall i :: 0 <= i < n ==> !places[i].Ask?
    requires forall i :: 0 <= i < n ==> Fed(places, i, x)
    ensures Records(places, n, x) == []
    decreases n
  {
    if n > 0 {
      NoRecords(places, n - 1, x);
    }
  }
}
