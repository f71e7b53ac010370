/** What collecting the changes promises: a batch counts as one update, its one
    event names exactly what changed, a listener that follows the events is never
    out of date for longer than a batch, and a page load finds the values again. */
module ReactiveLaws {
  import opened Text
  import opened Reactive

  // ---------------------------------------------------------------------
  // A batch counts as one update
  // ---------------------------------------------------------------------

  function UpdatedAll(s: State, batch: seq<map<string, Value>>): State
    decreases |batch|
  {
    if batch == [] then s else UpdatedAll(Updated(s, batch[0]), batch[1..])
  }

  /** The final values of a batch. */
  function Merged(batch: seq<map<string, Value>>): map<string, Value> {
    if batch == [] then map[] else batch[0] + Merged(batch[1..])
  }

  lemma TwoAsOne(s: State, a: map<string, Value>, b: map<string, Value>)
    ensures Updated(Updated(s, a), b) == Updated(s, a + b)
  {
  }

  lemma {:induction false} BatchIsOneUpdate(s: State, batch: seq<map<string, Value>>)
    requires batch != []
    ensures UpdatedAll(s, batch) == Updated(s, Merged(batch))
    decreases |batch|
  {
    hide Updated;
    var rest := batch[1..];
    if rest == [] {
      assert Merged(rest) == map[] && batch[0] + map[] == batch[0];
      assert UpdatedAll(Updated(s, batch[0]), rest) == Updated(s, batch[0]);
    } else {
      BatchIsOneUpdate(Updated(s, batch[0]), rest);
      TwoAsOne(s, batch[0], Merged(rest));
    }
  }

  ghost predicate Clean(s: State) { forall n :: n in s.props ==> s.props[n].prev.None? }

  /** After a batch on a clean state, one flush emits at most one event. It says
      true for exactly the writable properties whose final value is not identical
      to the one the batch found, and false for exactly the read-only ones that
      were named; everything is clean again. */
  lemma FlushIsExact(s: State, batch: seq<map<string, Value>>, name: string)
    requires Clean(s) && batch != [] && name in s.props
    ensures var final, p := Merged(batch), s.props[name];
      var changes, after := Changes(UpdatedAll(s, batch).props), Flushed(UpdatedAll(s, batch));
      && (name in changes && changes[name] <==>
            name in final && p.kind != ReadOnly && (final[name] != p.value || p.value == NaN))
      && (name in changes && !changes[name] <==> name in final && p.kind == ReadOnly && p.value != Undefined)
      && after.emitted == (if changes == map[] then s.emitted else s.emitted + [changes])
      && Clean(after) && !after.timer
      && name in after.props
        && after.props[name].value == (if name in final && p.kind != ReadOnly then final[name] else p.value)
  {
    hide Stored, Merged;
    BatchIsOneUpdate(s, batch);
    hide UpdatedAll;
  }

  // ---------------------------------------------------------------------
  // Whole runs
  // ---------------------------------------------------------------------

  datatype Event =
    | Define(kind: Kind, name: string, value: Value, identity: nat)
    | Change(params: map<string, Value>)
    | Flush

  predicate MayHappen(s: State, e: Event) { e.Define? ==> e.name !in s.props }

  function Next(s: State, e: Event): State {
    match e
    case Define(kind, name, value, identity) => Defined(s, kind, name, value, identity)
    case Change(params) => Updated(s, params)
    case Flush => Flushed(s)
  }

  predicate MayRun(s: State, es: seq<Event>)
    decreases |es|
  {
    es == [] || (MayHappen(s, es[0]) && MayRun(Next(s, es[0]), es[1..]))
  }

  function After(s: State, es: seq<Event>): State
    decreases |es|
  {
    if es == [] then s else After(Next(s, es[0]), es[1..])
  }

  /** What a listener knows: the values it finds when a property is defined, and
      from then on only those of properties an event names. */
  function Seen(view: map<string, Value>, s: State, e: Event): map<string, Value> {
    match e
    case Define(_, name, _, _) => view[name := Next(s, e).props[name].value]
    case Change(_) => view
    case Flush => map n | n in view :: if n in s.props && n in Changes(s.props) then s.props[n].value else view[n]
  }

  function ViewAfter(view: map<string, Value>, s: State, es: seq<Event>): map<string, Value>
    decreases |es|
  {
    if es == [] then view else ViewAfter(Seen(view, s, es[0]), Next(s, es[0]), es[1..])
  }

  /** The value at the start of the batch. */
  function Base(p: Prop): Value { if p.kind != ReadOnly && p.prev.Some? then p.prev.value else p.value }

  ghost predicate Following(view: map<string, Value>, s: State) {
    && view.Keys == s.props.Keys
    && forall n :: n in s.props ==> view[n] == Base(s.props[n]) && (s.props[n].prev.Some? ==> s.timer)
  }

  lemma StepFollows(view: map<string, Value>, s: State, e: Event)
    requires Following(view, s) && MayHappen(s, e)
    ensures Following(Seen(view, s, e), Next(s, e))
  {
    hide Stored, Entry, WithSlot, Loaded, Decode, WithStore;
    DefinedProps(s, e);
  }

  lemma DefinedProps(s: State, e: Event)
    ensures e.Define? ==>
      Next(s, e).props.Keys == s.props.Keys + {e.name} && Next(s, e).timer == s.timer
      && Next(s, e).props[e.name].prev.None?
      && forall n :: n in s.props && n != e.name ==> Next(s, e).props[n] == s.props[n]
  {
  }

  lemma {:induction false} RunFollows(view: map<string, Value>, s: State, es: seq<Event>)
    requires Following(view, s) && MayRun(s, es)
    ensures Following(ViewAfter(view, s, es), After(s, es))
    decreases |es|
  {
    hide Following, Next, Seen, MayHappen;
    if es != [] {
      StepFollows(view, s, es[0]);
      RunFollows(Seen(view, s, es[0]), Next(s, es[0]), es[1..]);
    }
  }

  /** No change goes unreported: whenever no flush is due, a listener that only
      follows the events knows every value. */
  lemma ListenersKeepUp(storage: Store, cookies: Store, es: seq<Event>)
    requires MayRun(State(map[], false, storage, cookies, []), es)
    ensures var start := State(map[], false, storage, cookies, []);
      var s, view := After(start, es), ViewAfter(map[], start, es);
      !s.timer ==> view.Keys == s.props.Keys && forall n :: n in s.props ==> view[n] == s.props[n].value
  {
    RunFollows(map[], State(map[], false, storage, cookies, []), es);
  }

  // ---------------------------------------------------------------------
  // Page loads
  // ---------------------------------------------------------------------

  /** Equal as JSON. */
  predicate Same(a: Value, b: Value) { a == b || (a.Object? && b.Object? && a.text == b.text) }

  predicate IsJson(v: Value) { v.Scalar? || v.Object? }

  /** What can be found again: JSON values other than null, else the default. */
  function Kept(value: Value, defaultValue: Value): Value { if IsJson(value) then value else defaultValue }

  predicate IsStored(kind: Kind) { kind == Cookie || kind == Persist }

  /** A page load would find what the last flush, or the definition, left. */
  ghost predicate Remembers(s: State, n: string)
    requires n in s.props && IsStored(s.props[n].kind)
  {
    var p := s.props[n];
    forall identity: nat ::
      Same(Loaded(SlotOf(StoreOf(s, p.kind), n), p.defaultValue, identity), Kept(Base(p), p.defaultValue))
  }

  ghost predicate RemembersAll(s: State) {
    forall n :: n in s.props && IsStored(s.props[n].kind) ==> Remembers(s, n)
  }

  lemma EntryIsKept(kind: Kind, value: Value, defaultValue: Value, identity: nat)
    ensures Same(Loaded(Entry(kind, value, defaultValue), defaultValue, identity), Kept(value, defaultValue))
  {
  }

  /** A value is found again exactly when it is a JSON value other than null, or
      the default. */
  lemma FoundAgain(value: Value, defaultValue: Value)
    ensures Same(Kept(value, defaultValue), value) <==> IsJson(value) || value == defaultValue
  {
  }

  lemma StoredSlot(store: Store, kind: Kind, props: map<string, Prop>, n: string)
    requires n in props
    ensures SlotOf(Stored(store, kind, props, props.Keys), n) == NewSlot(store, kind, props, props.Keys, n)
  {
  }

  lemma FlushRemembers(s: State, n: string)
    requires n in s.props && IsStored(s.props[n].kind) && Remembers(s, n)
    ensures Remembers(Flushed(s), n)
  {
    var p := s.props[n];
    StoredSlot(s.storage, Persist, s.props, n);
    StoredSlot(s.cookies, Cookie, s.props, n);
    hide Stored, Loaded, Entry, Kept;
    assert Flushed(s).props[n] == p.(prev := None);
    assert SlotOf(StoreOf(Flushed(s), p.kind), n) ==
      if Differs(p) then Entry(p.kind, p.value, p.defaultValue) else SlotOf(StoreOf(s, p.kind), n);
    if Differs(p) {
      forall identity: nat
        ensures Same(Loaded(SlotOf(StoreOf(Flushed(s), p.kind), n), p.defaultValue, identity),
          Kept(p.value, p.defaultValue))
      {
        EntryIsKept(p.kind, p.value, p.defaultValue, identity);
      }
    } else {
      assert Base(p) == p.value;
    }
  }

  lemma DefineRemembers(s: State, e: Event)
    requires e.Define? && IsStored(e.kind)
    ensures Remembers(Next(s, e), e.name)
  {
    var slot := SlotOf(StoreOf(s, e.kind), e.name);
    var t := Next(s, e);
    assert SlotOf(StoreOf(t, e.kind), e.name) ==
      if IsUndefined(Decode(slot, e.identity)) then Entry(e.kind, e.value, e.value) else slot;
  }

  lemma DefineKeepsOthers(s: State, e: Event, n: string)
    requires e.Define? && n in s.props && n != e.name && IsStored(s.props[n].kind) && Remembers(s, n)
    ensures Remembers(Next(s, e), n)
  {
    hide Loaded, Decode, Entry, Kept;
    var t, kind := Next(s, e), s.props[n].kind;
    assert t.props[n] == s.props[n] && SlotOf(StoreOf(t, kind), n) == SlotOf(StoreOf(s, kind), n);
  }

  lemma ChangeKeepsBase(s: State, params: map<string, Value>, n: string)
    requires n in s.props && IsStored(s.props[n].kind) && Remembers(s, n)
    ensures Remembers(Updated(s, params), n)
  {
    hide Loaded, Kept;
    var t, p := Updated(s, params), s.props[n];
    assert Base(t.props[n]) == Base(p) && t.props[n].kind == p.kind && t.props[n].defaultValue == p.defaultValue;
    assert SlotOf(StoreOf(t, p.kind), n) == SlotOf(StoreOf(s, p.kind), n);
  }

  lemma StepRemembers(s: State, e: Event)
    requires RemembersAll(s) && MayHappen(s, e)
    ensures RemembersAll(Next(s, e))
  {
    forall n | n in Next(s, e).props && IsStored(Next(s, e).props[n].kind) ensures Remembers(Next(s, e), n) {
      RemembersOne(s, e, n);
    }
  }

  lemma RemembersOne(s: State, e: Event, n: string)
    requires RemembersAll(s) && MayHappen(s, e)
    requires n in Next(s, e).props && IsStored(Next(s, e).props[n].kind)
    ensures Remembers(Next(s, e), n)
  {
    hide Remembers, Stored, Loaded, Entry;
    match e
    case Define(_, name, _, _) =>
      if n == name { DefineRemembers(s, e); } else { DefineKeepsOthers(s, e, n); }
    case Change(params) => ChangeKeepsBase(s, params, n);
    case Flush => FlushRemembers(s, n);
  }

  lemma {:induction false} RunRemembers(s: State, es: seq<Event>)
    requires RemembersAll(s) && MayRun(s, es)
    ensures RemembersAll(After(s, es))
    decreases |es|
  {
    hide RemembersAll, Next, MayHappen;
    if es != [] {
      StepRemembers(s, es[0]);
      RunRemembers(Next(s, es[0]), es[1..]);
    }
  }

  /** Whatever the stores held at first and whatever happened since: whenever no
      flush is due, loading a stored property again gives its value exactly when
      that is a JSON value other than null, or the default. */
  lemma LoadsAgain(storage: Store, cookies: Store, es: seq<Event>, n: string, identity: nat)
    requires MayRun(State(map[], false, storage, cookies, []), es)
    requires var s := After(State(map[], false, storage, cookies, []), es);
      !s.timer && n in s.props && IsStored(s.props[n].kind)
    ensures var s := After(State(map[], false, storage, cookies, []), es);
      var p := s.props[n];
      Same(Loaded(SlotOf(StoreOf(s, p.kind), n), p.defaultValue, identity), p.value) <==>
        IsJson(p.value) || p.value == p.defaultValue
  {
    hide Loaded, Next, MayHappen, Seen, After, ViewAfter, MayRun;
    var start := State(map[], false, storage, cookies, []);
    RunRemembers(start, es);
    RunFollows(map[], start, es);
    var s := After(start, es);
    assert Remembers(s, n) && Base(s.props[n]) == s.props[n].value;
    FoundAgain(s.props[n].value, s.props[n].defaultValue);
  }

  /** What a page load finds: after any run, when no flush is due, defining the property
      anew in a page that starts with the same stores gives its value back exactly in
      these cases, and leaves every other slot alone. */
  lemma ReloadFinds(storage: Store, cookies: Store, es: seq<Event>, n: string, identity: nat, other: string)
    requires MayRun(State(map[], false, storage, cookies, []), es)
    requires var s := After(State(map[], false, storage, cookies, []), es);
      !s.timer && n in s.props && IsStored(s.props[n].kind)
    ensures var s := After(State(map[], false, storage, cookies, []), es);
      var p := s.props[n];
      var page := Defined(State(map[], false, s.storage, s.cookies, []), p.kind, n, p.defaultValue, identity);
      && n in page.props && page.props[n].defaultValue == p.defaultValue && page.props[n].kind == p.kind
      && (Same(page.props[n].value, p.value) <==> IsJson(p.value) || p.value == p.defaultValue)
      && (other != n ==>
            SlotOf(page.storage, other) == SlotOf(s.storage, other)
            && SlotOf(page.cookies, other) == SlotOf(s.cookies, other))
  {
    hide Next, MayHappen, After, MayRun, Entry, Decode;
    LoadsAgain(storage, cookies, es, n, identity);
  }

  /** What a slot holds of a value: nothing for a default, nor for undefined in a cookie;
      JSON knows no undefined, NaN or infinity. */
  function SlotFor(kind: Kind, value: Value, defaultValue: Value): Option<Slot> {
    if value == defaultValue && value != NaN then None
    else
      match value
      case Undefined => if kind == Cookie then None else Some(Garbage)
      case Scalar(text) => Some(JsonScalar(text))
      case Object(_, text) => Some(JsonObject(text))
      case _ => Some(JsonNull)
  }

  /** A cookie goes to the cookies and a persistent property to the local storage, as
      soon as a flush finds it changed; nothing else is written. */
  lemma FlushStores(s: State, n: string)
    requires n in s.props
    ensures var p, t := s.props[n], Flushed(s);
      var changed := p.prev.Some? && (p.value != p.prev.value || p.value == NaN);
      && SlotOf(t.cookies, n) ==
        (if changed && p.kind == Cookie then SlotFor(Cookie, p.value, p.defaultValue) else SlotOf(s.cookies, n))
      && SlotOf(t.storage, n) ==
        (if changed && p.kind == Persist then SlotFor(Persist, p.value, p.defaultValue) else SlotOf(s.storage, n))
  {
    StoredSlot(s.storage, Persist, s.props, n);
    StoredSlot(s.cookies, Cookie, s.props, n);
    hide Stored;
  }
}
