/** Properties whose changes are collected and reported once: the class Reactive
    of the frontend, with the cookies and the local storage that hold some of its
    values between page loads. */
module Reactive {
  import opened Text

  /** JavaScript values as far as `===` and JSON can tell them apart: an object
      has an identity besides its content. */
  datatype Value = Undefined | Null | NaN | Infinite | Scalar(text: string) | Object(identity: nat, text: string)

  /** What a storage slot holds: a JSON text, or one that does not parse. */
  datatype Slot = JsonNull | JsonScalar(text: string) | JsonObject(text: string) | Garbage

  type Store = map<string, Slot>

  datatype Kind = Cookie | Persist | ReadOnly | Writable

  /** `prev` is there from the first update of a batch until the flush. */
  datatype Prop = Prop(kind: Kind, defaultValue: Value, value: Value, prev: Option<Value>)

  /** Slots go by the name of their property; `timer` says that a flush is due. */
  datatype State = State(props: map<string, Prop>, timer: bool, storage: Store, cookies: Store,
      emitted: seq<map<string, bool>>)

  /** a === b */
  predicate Identical(a: Value, b: Value) { a == b && a != NaN }

  /** is.undefined() */
  predicate IsUndefined(v: Value) { v == Undefined || v == Null }

  /** JSON.stringify() as it reaches a slot: local storage keeps the word
      "undefined", the cookie leaves an undefined member out. */
  function Encode(kind: Kind, v: Value): Option<Slot> {
    match v
    case Undefined => if kind == Cookie then None else Some(Garbage)
    case Null => Some(JsonNull)
    case NaN => Some(JsonNull)
    case Infinite => Some(JsonNull)
    case Scalar(text) => Some(JsonScalar(text))
    case Object(_, text) => Some(JsonObject(text))
  }

  /** JSON.parse() of a slot: an object gets a new identity. */
  function Decode(slot: Option<Slot>, identity: nat): Value {
    match slot
    case None => Undefined
    case Some(Garbage) => Undefined
    case Some(JsonNull) => Null
    case Some(JsonScalar(text)) => Scalar(text)
    case Some(JsonObject(text)) => Object(identity, text)
  }

  function SlotOf(store: Store, name: string): Option<Slot> { if name in store then Some(store[name]) else None }

  function WithSlot(store: Store, name: string, slot: Option<Slot>): Store {
    if slot.Some? then store[name := slot.value] else store - {name}
  }

  /** A default is not stored. */
  function Entry(kind: Kind, value: Value, defaultValue: Value): Option<Slot> {
    if Identical(value, defaultValue) then None else Encode(kind, value)
  }

  function StoreOf(s: State, kind: Kind): Store { if kind == Cookie then s.cookies else s.storage }

  function WithStore(s: State, kind: Kind, store: Store): State {
    if kind == Cookie then s.(cookies := store) else if kind == Persist then s.(storage := store) else s
  }

  // ---------------------------------------------------------------------
  // The operations
  // ---------------------------------------------------------------------

  /** The value a stored property starts with. */
  function Loaded(slot: Option<Slot>, defaultValue: Value, identity: nat): Value {
    var v := Decode(slot, identity);
    if IsUndefined(v) then defaultValue else v
  }

  function Defined(s: State, kind: Kind, name: string, value: Value, identity: nat): State {
    if kind != Cookie && kind != Persist then s.(props := s.props[name := Prop(kind, value, value, None)])
    else
      var slot := SlotOf(StoreOf(s, kind), name);
      var t := s.(props := s.props[name := Prop(kind, value, Loaded(slot, value, identity), None)]);
      if !IsUndefined(Decode(slot, identity)) then t
      else WithStore(t, kind, WithSlot(StoreOf(s, kind), name, Entry(kind, value, value)))
  }

  function Touched(p: Prop, v: Value): Prop {
    Prop(p.kind, p.defaultValue, if p.kind == ReadOnly then p.value else v,
         if p.prev.Some? then p.prev else Some(if p.kind == ReadOnly then Undefined else p.value))
  }

  function Updated(s: State, params: map<string, Value>): State {
    s.(props := map n | n in s.props ::
      if n in params then Touched(s.props[n], params[n]) else s.props[n], timer := true)
  }

  /** A property to report. */
  predicate Differs(p: Prop) { p.prev.Some? && !Identical(p.value, p.prev.value) }

  function Changes(props: map<string, Prop>): map<string, bool> {
    map n | n in props && Differs(props[n]) :: props[n].kind != ReadOnly
  }

  /** The slot of one property after the changes among `done` are stored. */
  function NewSlot(store: Store, kind: Kind, props: map<string, Prop>, done: set<string>, n: string): Option<Slot> {
    if n in done && n in props && props[n].kind == kind && Differs(props[n])
    then Entry(kind, props[n].value, props[n].defaultValue)
    else SlotOf(store, n)
  }

  function Stored(store: Store, kind: Kind, props: map<string, Prop>, done: set<string>): Store {
    map n | n in store.Keys + props.Keys && NewSlot(store, kind, props, done, n).Some? ::
      NewSlot(store, kind, props, done, n).value
  }

  function Cleaned(props: map<string, Prop>, done: set<string>): map<string, Prop> {
    map n | n in props :: if n in done then props[n].(prev := None) else props[n]
  }

  function Flushed(s: State): State {
    var all, changes := s.props.Keys, Changes(s.props);
    State(Cleaned(s.props, all), false,
          Stored(s.storage, Persist, s.props, all), Stored(s.cookies, Cookie, s.props, all),
          if changes == map[] then s.emitted else s.emitted + [changes])
  }

  lemma StoredNone(store: Store, kind: Kind, props: map<string, Prop>)
    ensures Stored(store, kind, props, {}) == store
  {
  }

  lemma StoredOne(store: Store, kind: Kind, props: map<string, Prop>, done: set<string>, n: string)
    requires n in props && n !in done
    ensures Stored(store, kind, props, done + {n}) ==
      if props[n].kind == kind && Differs(props[n])
      then WithSlot(Stored(store, kind, props, done), n, Entry(kind, props[n].value, props[n].defaultValue))
      else Stored(store, kind, props, done)
  {
    hide Entry, Differs;
  }

  function Reported(props: map<string, Prop>, done: set<string>): map<string, bool> {
    map n | n in done && n in props && Differs(props[n]) :: props[n].kind != ReadOnly
  }

  lemma ReportedOne(props: map<string, Prop>, done: set<string>, n: string)
    requires n in props && n !in done
    ensures Reported(props, done + {n}) ==
      if Differs(props[n]) then Reported(props, done)[n := props[n].kind != ReadOnly] else Reported(props, done)
  {
    hide Differs;
  }

  lemma ReportedAll(props: map<string, Prop>)
    ensures Reported(props, props.Keys) == Changes(props) && Reported(props, {}) == map[]
  {
    hide Differs;
  }

  class Reactive {
    var props: map<string, Prop>
    var updatedTid: bool
    var storage: Store
    var cookies: Store
    ghost var emitted: seq<map<string, bool>> // "update" events

    ghost function Abs(): State
      reads this
    {
      State(props, updatedTid, storage, cookies, emitted)
    }

    constructor (storage: Store, cookies: Store)
      ensures Abs() == State(map[], false, storage, cookies, [])
    {
      this.props, this.updatedTid, this.storage, this.cookies, this.emitted := map[], false, storage, cookies, [];
    }

    method Save(kind: Kind, name: string, value: Value)
      requires name in props
      modifies this`storage, this`cookies
      ensures Abs() == WithStore(old(Abs()), kind,
        WithSlot(StoreOf(old(Abs()), kind), name, Entry(kind, value, props[name].defaultValue)))
    {
      var entry := if Identical(value, props[name].defaultValue) then None else Encode(kind, value);
      if kind == Cookie {
        cookies := if entry.Some? then cookies[name := entry.value] else cookies - {name};
      } else if kind == Persist {
        storage := if entry.Some? then storage[name := entry.value] else storage - {name};
      }
    }

    /** prop(): throws, after the property is there, for an undefined read-only
        value. A parsed object gets the given identity. */
    method DefineProp(kind: Kind, name: string, value: Value, identity: nat) returns (threw: bool)
      modifies this
      ensures Abs() == Defined(old(Abs()), kind, name, value, identity)
      ensures threw <==> kind == ReadOnly && value == Undefined
    {
      props := props[name := Prop(kind, value, value, None)];
      if kind == Cookie || kind == Persist {
        var fromStorage := Decode(SlotOf(if kind == Cookie then cookies else storage, name), identity);
        if !IsUndefined(fromStorage) {
          props := props[name := props[name].(value := fromStorage)];
        } else {
          Save(kind, name, value);
        }
      }
      threw := kind == ReadOnly && value == Undefined;
    }

    method Update(params: map<string, Value>)
      modifies this`props, this`updatedTid
      ensures Abs() == Updated(old(Abs()), params)
    {
      var todo := params.Keys;
      ghost var was := props;
      while todo != {}
        invariant todo <= params.Keys && props.Keys == was.Keys
        invariant forall n :: n in was ==>
          props[n] == if n in params && n !in todo then Touched(was[n], params[n]) else was[n]
        decreases todo
      {
        var name :| name in todo;
        todo := todo - {name};
        if name in props {
          var prop := props[name];
          if prop.prev.None? {
            prop := prop.(prev := Some(if prop.kind == ReadOnly then Undefined else prop.value));
          }
          if prop.kind != ReadOnly {
            prop := prop.(value := params[name]);
          }
          props := props[name := prop];
        }
      }
      updatedTid := true;
    }

    method DelayedUpdate() returns (changed: map<string, bool>)
      modifies this
      ensures changed == Changes(old(props)) && Abs() == Flushed(old(Abs()))
    {
      hide Entry, Differs, Stored, Identical, Encode, Reported, Changes;
      ghost var was, storage0, cookies0 := props, storage, cookies;
      changed := map[];
      var todo := props.Keys;
      ghost var done: set<string> := {};
      StoredNone(storage, Persist, was);
      StoredNone(cookies, Cookie, was);
      ReportedAll(was);
      assert props == Cleaned(was, done);
      while todo != {}
        invariant todo + done == was.Keys && todo !! done
        invariant updatedTid == old(updatedTid) && emitted == old(emitted)
        invariant props == Cleaned(was, done)
        invariant storage == Stored(storage0, Persist, was, done) && cookies == Stored(cookies0, Cookie, was, done)
        invariant changed == Reported(was, done)
        decreases todo
      {
        var name :| name in todo;
        var prop := props[name];
        StoredOne(storage0, Persist, was, done, name);
        StoredOne(cookies0, Cookie, was, done, name);
        ReportedOne(was, done, name);
        todo := todo - {name};
        props := props[name := prop.(prev := None)];
        var differs := Different(prop);
        if differs {
          if prop.kind == Cookie || prop.kind == Persist {
            Save(prop.kind, name, prop.value);
          }
          changed := changed[name := prop.kind != ReadOnly];
        }
        done := done + {name};
      }
      assert done == was.Keys;
      updatedTid := false;
      if changed != map[] {
        emitted := emitted + [changed];
      }
    }

    /** The two tests that skip a property. */
    method Different(prop: Prop) returns (r: bool)
      ensures r == Differs(prop)
    {
      if prop.prev.None? { return false; }
      r := !Identical(prop.value, prop.prev.value);
    }
  }
}
