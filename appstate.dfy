// The portfolio page's state store (script.js `AppState`): a keyed state map whose `setState`
// assigns only the keys whose value differs under strict equality, notifies the subscribers in
// subscription order when something changed, and derives the read-only `props` from the state.
// Also the scroll handler's section computation and the restore of the saved display mode.

module AppStore {
  import opened Wrappers

  /** The JavaScript values the store holds: `undefined`, booleans and strings. Strict equality
      (`===`) on these is value equality. */
  datatype Value = Undefined | Bool(b: bool) | Str(s: string)

  type State = map<string, Value>

  /** JavaScript truthiness. */
  predicate Truthy(v: Value)
  {
    match v
    case Undefined => false
    case Bool(b) => b
    case Str(s) => s != ""
  }

  /** `_state[key]`: a key that was never set reads as `undefined`. */
  function Lookup(state: State, key: string): Value
  {
    if key in state then state[key] else Undefined
  }

  /** The state the page starts in. */
  const InitialState: State :=
    map["mode" := Str("creative"), "scrolled" := Bool(false), "mobileMenuOpen" := Bool(false),
        "activeSection" := Str("home"), "typingActive" := Bool(true)]

  // ---------------------------------------------------------------------------------------------
  // Derived props

  datatype Props = Props(
    mode: Value,
    isCreative: bool,
    isProfessional: bool,
    scrolled: Value,
    mobileMenuOpen: Value,
    activeSection: Value,
    typingActive: Value,
    modeLabel: string,
    bodyClass: string)

  /** The `props` getter. `typingActive` is `s.typingActive && s.mode === 'creative'`, so it is
      the stored value itself when that is falsy and the comparison's boolean otherwise. */
  function PropsOf(state: State): (p: Props)
    ensures p.isCreative <==> Lookup(state, "mode") == Str("creative")
    ensures p.isProfessional <==> Lookup(state, "mode") == Str("professional")
    ensures Truthy(p.typingActive) <==> Truthy(Lookup(state, "typingActive")) && p.isCreative
    ensures p.modeLabel == "Creative" <==> p.isCreative
    ensures p.bodyClass == "professional" <==> p.isProfessional
    ensures !(p.isCreative && p.isProfessional)
  {
    var mode := Lookup(state, "mode");
    var typing := Lookup(state, "typingActive");
    Props(
      mode,
      mode == Str("creative"),
      mode == Str("professional"),
      Lookup(state, "scrolled"),
      Lookup(state, "mobileMenuOpen"),
      Lookup(state, "activeSection"),
      if Truthy(typing) then Bool(mode == Str("creative")) else typing,
      if mode == Str("creative") then "Creative" else "Professional",
      if mode == Str("professional") then "professional" else "")
  }

  /** The label and the body class depend on the mode alone. */
  lemma ModeDeterminesPresentation(s1: State, s2: State)
    requires Lookup(s1, "mode") == Lookup(s2, "mode")
    ensures PropsOf(s1).modeLabel == PropsOf(s2).modeLabel
    ensures PropsOf(s1).bodyClass == PropsOf(s2).bodyClass
    ensures PropsOf(s1).isCreative == PropsOf(s2).isCreative
    ensures PropsOf(s1).isProfessional == PropsOf(s2).isProfessional
  {
  }

  /** The page starts creative, typing, with the creative label and no body class. */
  lemma InitialProps()
    ensures PropsOf(InitialState).isCreative && !PropsOf(InitialState).isProfessional
    ensures PropsOf(InitialState).typingActive == Bool(true)
    ensures PropsOf(InitialState).modeLabel == "Creative" && PropsOf(InitialState).bodyClass == ""
    ensures PropsOf(InitialState).activeSection == Str("home")
  {
  }

  // ---------------------------------------------------------------------------------------------
  // setState as a function of the state

  /** The keys of an update object, in insertion order. */
  function Keys(updates: seq<(string, Value)>): seq<string>
  {
    seq(|updates|, i requires 0 <= i < |updates| => updates[i].0)
  }

  /** An object literal names each key once. */
  predicate DistinctKeys(updates: seq<(string, Value)>)
  {
    forall i, j :: 0 <= i < j < |updates| ==> updates[i].0 != updates[j].0
  }

  /** One iteration of the assignment loop. */
  function Assign(state: State, key: string, value: Value): State
  {
    if Lookup(state, key) != value then state[key := value] else state
  }

  /** The state after the assignment loop over `updates`. */
  function Apply(state: State, updates: seq<(string, Value)>): (r: State)
    decreases |updates|
    ensures forall k :: k in state ==> k in r
    ensures forall k :: k in r && k !in state ==> k in Keys(updates)
  {
    if updates == [] then state
    else
      var last := updates[|updates| - 1];
      assert Keys(updates) == Keys(updates[..|updates| - 1]) + [last.0];
      Assign(Apply(state, updates[..|updates| - 1]), last.0, last.1)
  }

  /** The update keys whose value differs from the one in `state`, in update order. */
  function Differing(state: State, updates: seq<(string, Value)>): (d: seq<string>)
    decreases |updates|
    ensures |d| <= |updates|
    ensures forall i :: 0 <= i < |updates| && Lookup(state, updates[i].0) != updates[i].1 ==> updates[i].0 in d
    ensures forall k :: k in d ==> exists i :: 0 <= i < |updates| && updates[i].0 == k && Lookup(state, k) != updates[i].1
  {
    if updates == [] then []
    else
      var last := updates[|updates| - 1];
      Differing(state, updates[..|updates| - 1]) + (if Lookup(state, last.0) != last.1 then [last.0] else [])
  }

  /** `Object.keys(updates).filter(k => prev[k] !== this._state[k])`. */
  function ChangedKeys(prev: State, now: State, keys: seq<string>): (r: seq<string>)
    decreases |keys|
    ensures forall k :: k in r ==> k in keys && Lookup(prev, k) != Lookup(now, k)
    ensures forall i :: 0 <= i < |keys| && Lookup(prev, keys[i]) != Lookup(now, keys[i]) ==> keys[i] in r
  {
    if keys == [] then []
    else
      var k := keys[|keys| - 1];
      ChangedKeys(prev, now, keys[..|keys| - 1]) + (if Lookup(prev, k) != Lookup(now, k) then [k] else [])
  }

  /** A key the update does not name keeps its entry. */
  lemma {:induction false} ApplyUntouched(s: State, updates: seq<(string, Value)>, k: string)
    requires forall i :: 0 <= i < |updates| ==> updates[i].0 != k
    ensures Lookup(Apply(s, updates), k) == Lookup(s, k)
    ensures k in Apply(s, updates) <==> k in s
    ensures k in s ==> Apply(s, updates)[k] == s[k]
    decreases |updates|
  {
    if updates != [] {
      ApplyUntouched(s, updates[..|updates| - 1], k);
    }
  }

  /** Every key the update names ends with the update's value. */
  lemma {:induction false} ApplyGet(s: State, updates: seq<(string, Value)>, i: int)
    requires DistinctKeys(updates) && 0 <= i < |updates|
    ensures Lookup(Apply(s, updates), updates[i].0) == updates[i].1
    decreases |updates|
  {
    var n := |updates| - 1;
    if i < n {
      var prefix := updates[..n];
      ApplyGet(s, prefix, i);
      assert prefix[i] == updates[i];
      assert updates[n].0 != updates[i].0;
    }
  }

  /** setState assigns exactly the differing keys: every other entry, present or absent, is as
      it was. */
  lemma {:induction false} ApplyFrame(s: State, updates: seq<(string, Value)>, k: string)
    requires DistinctKeys(updates) && k !in Differing(s, updates)
    ensures k in Apply(s, updates) <==> k in s
    ensures k in s ==> Apply(s, updates)[k] == s[k]
    decreases |updates|
  {
    if updates != [] {
      var n := |updates| - 1;
      var prefix := updates[..n];
      assert DistinctKeys(prefix);
      ApplyFrame(s, prefix, k);
      if updates[n].0 == k {
        forall i | 0 <= i < |prefix| ensures prefix[i].0 != k {
          assert prefix[i] == updates[i];
        }
        ApplyUntouched(s, prefix, k);
      }
    }
  }

  /** With no differing key the state is returned as it was. */
  lemma {:induction false} ApplyWithoutDifference(s: State, updates: seq<(string, Value)>)
    requires DistinctKeys(updates) && Differing(s, updates) == []
    ensures Apply(s, updates) == s
  {
    forall k ensures (k in Apply(s, updates) <==> k in s) && (k in s ==> Apply(s, updates)[k] == s[k]) {
      ApplyFrame(s, updates, k);
    }
  }

  /** setState changes the state iff some update value differs from the stored one. */
  lemma ApplyChangesIffDiffering(s: State, updates: seq<(string, Value)>)
    requires DistinctKeys(updates)
    ensures Apply(s, updates) == s <==> Differing(s, updates) == []
  {
    if Differing(s, updates) == [] {
      ApplyWithoutDifference(s, updates);
    } else {
      var k := Differing(s, updates)[0];
      var i :| 0 <= i < |updates| && updates[i].0 == k && Lookup(s, k) != updates[i].1;
      ApplyGet(s, updates, i);
      assert Lookup(Apply(s, updates), k) != Lookup(s, k);
    }
  }

  /** When every update key holds its update value, nothing differs. */
  lemma {:induction false} NothingDiffersWhenAllSet(t: State, updates: seq<(string, Value)>)
    requires forall i :: 0 <= i < |updates| ==> Lookup(t, updates[i].0) == updates[i].1
    ensures Differing(t, updates) == []
    decreases |updates|
  {
    if updates != [] {
      var prefix := updates[..|updates| - 1];
      forall i | 0 <= i < |prefix| ensures Lookup(t, prefix[i].0) == prefix[i].1 {
        assert prefix[i] == updates[i];
      }
      NothingDiffersWhenAllSet(t, prefix);
    }
  }

  /** The same setState twice: the second call differs nowhere, so it changes nothing and
      notifies nobody. */
  lemma SetStateTwice(s: State, updates: seq<(string, Value)>)
    requires DistinctKeys(updates)
    ensures Differing(Apply(s, updates), updates) == []
    ensures Apply(Apply(s, updates), updates) == Apply(s, updates)
  {
    forall i | 0 <= i < |updates| ensures Lookup(Apply(s, updates), updates[i].0) == updates[i].1 {
      ApplyGet(s, updates, i);
    }
    NothingDiffersWhenAllSet(Apply(s, updates), updates);
    ApplyWithoutDifference(Apply(s, updates), updates);
  }

  /** The keys reported to subscribers (compared before and after) are the update keys whose
      value differed. */
  lemma {:induction false} ChangedKeysAreDiffering(s: State, t: State, updates: seq<(string, Value)>)
    requires forall i :: 0 <= i < |updates| ==> Lookup(t, updates[i].0) == updates[i].1
    ensures ChangedKeys(s, t, Keys(updates)) == Differing(s, updates)
    decreases |updates|
  {
    if updates != [] {
      var n := |updates| - 1;
      var prefix := updates[..n];
      forall i | 0 <= i < |prefix| ensures Lookup(t, prefix[i].0) == prefix[i].1 {
        assert prefix[i] == updates[i];
      }
      ChangedKeysAreDiffering(s, t, prefix);
      assert Keys(updates)[..n] == Keys(prefix);
    }
  }

  /** One iteration of the assignment loop, for distinct keys: the key still holds its value
      from before the loop, and it is reported iff that value differs. */
  lemma AssignmentStep(s: State, updates: seq<(string, Value)>, i: int)
    requires DistinctKeys(updates) && 0 <= i < |updates|
    ensures Apply(s, updates[..i + 1]) == Assign(Apply(s, updates[..i]), updates[i].0, updates[i].1)
    ensures Lookup(Apply(s, updates[..i]), updates[i].0) == Lookup(s, updates[i].0)
    ensures Differing(s, updates[..i + 1])
         == Differing(s, updates[..i]) + (if Lookup(s, updates[i].0) != updates[i].1 then [updates[i].0] else [])
  {
    var key := updates[i].0;
    assert updates[..i + 1][..i] == updates[..i];
    forall j | 0 <= j < i ensures updates[..i][j].0 != key {
      assert updates[..i][j] == updates[j];
    }
    ApplyUntouched(s, updates[..i], key);
  }

  /** An update of a single key. */
  lemma ApplySingle(s: State, key: string, value: Value)
    ensures Apply(s, [(key, value)]) == Assign(s, key, value)
    ensures Differing(s, [(key, value)]) == if Lookup(s, key) != value then [key] else []
  {
    assert [(key, value)][..0] == [];
  }

  // ---------------------------------------------------------------------------------------------
  // toggle

  /** `!v` as a value. */
  function Negate(v: Value): Value
  {
    Bool(!Truthy(v))
  }

  /** The state after `toggle(key)`: the key holds the negation of what it held. */
  function Toggled(s: State, key: string): (r: State)
    ensures Truthy(Lookup(r, key)) <==> !Truthy(Lookup(s, key))
    ensures Lookup(r, key).Bool?
    ensures forall k :: k != key ==> Lookup(r, k) == Lookup(s, k)
  {
    s[key := Negate(Lookup(s, key))]
  }

  /** Two toggles restore the state exactly when the key held a boolean. */
  lemma ToggleTwice(s: State, key: string)
    ensures Toggled(Toggled(s, key), key) == s <==> Lookup(s, key).Bool?
  {
    if Lookup(s, key).Bool? {
      assert Toggled(Toggled(s, key), key) == s[key := Lookup(s, key)];
    } else {
      assert Lookup(Toggled(Toggled(s, key), key), key) != Lookup(s, key);
    }
  }

  // ---------------------------------------------------------------------------------------------
  // Subscribers

  /** `_subscribers.filter(s => s !== fn)`. */
  function Without(subs: seq<nat>, fn: nat): (r: seq<nat>)
    decreases |subs|
    ensures fn !in r
    ensures forall x :: x in r <==> x in subs && x != fn
    ensures |r| <= |subs|
  {
    if subs == [] then []
    else Without(subs[..|subs| - 1], fn) + (if subs[|subs| - 1] != fn then [subs[|subs| - 1]] else [])
  }

  /** The filter keeps the order of the others: it distributes over concatenation, so the
      others before a point stay before it. */
  lemma {:induction false} WithoutConcat(a: seq<nat>, b: seq<nat>, fn: nat)
    ensures Without(a + b, fn) == Without(a, fn) + Without(b, fn)
    decreases |b|
  {
    if b != [] {
      var n := |b| - 1;
      var tail := if b[n] != fn then [b[n]] else [];
      assert (a + b)[..|a + b| - 1] == a + b[..n];
      assert (a + b)[|a + b| - 1] == b[n];
      WithoutConcat(a, b[..n], fn);
      calc {
        Without(a + b, fn);
        Without(a + b[..n], fn) + tail;
        (Without(a, fn) + Without(b[..n], fn)) + tail;
        Without(a, fn) + (Without(b[..n], fn) + tail);
        Without(a, fn) + Without(b, fn);
      }
    } else {
      assert a + b == a;
    }
  }

  /** The filter leaves every other subscriber's count unchanged and removes every occurrence
      of `fn`. */
  lemma {:induction false} WithoutCounts(subs: seq<nat>, fn: nat)
    ensures multiset(Without(subs, fn))[fn] == 0
    ensures forall x :: x != fn ==> multiset(Without(subs, fn))[x] == multiset(subs)[x]
    decreases |subs|
  {
    if subs != [] {
      var n := |subs| - 1;
      WithoutCounts(subs[..n], fn);
      assert subs == subs[..n] + [subs[n]];
    }
  }

  /** Unsubscribing a function that was never subscribed changes nothing. */
  lemma {:induction false} WithoutAbsent(subs: seq<nat>, fn: nat)
    requires fn !in subs
    ensures Without(subs, fn) == subs
    decreases |subs|
  {
    if subs != [] {
      var n := |subs| - 1;
      var prefix := subs[..n];
      assert subs == prefix + [subs[n]];
      WithoutAbsent(prefix, fn);
    }
  }

  // ---------------------------------------------------------------------------------------------
  // Scroll tracking and the saved mode

  datatype Section = Section(id: string, offsetTop: real)

  /** The section whose top is at most 200 px below the scroll position counts as reached. */
  predicate Reached(y: real, section: Section)
  {
    y >= section.offsetTop - 200.0
  }

  /** The id of the last reached section in document order, or `home`. */
  function ActiveSection(y: real, sections: seq<Section>): (id: string)
    decreases |sections|
    ensures id == "home" || exists i :: 0 <= i < |sections| && sections[i].id == id && Reached(y, sections[i])
  {
    if sections == [] then "home"
    else if Reached(y, sections[|sections| - 1]) then sections[|sections| - 1].id
    else ActiveSection(y, sections[..|sections| - 1])
  }

  /** The index of the last reached section, or -1 when none is reached. */
  function LastReached(y: real, sections: seq<Section>): (r: int)
    decreases |sections|
    ensures -1 <= r < |sections|
    ensures r >= 0 ==> Reached(y, sections[r])
    ensures forall j :: r < j < |sections| ==> !Reached(y, sections[j])
  {
    if sections == [] then -1
    else if Reached(y, sections[|sections| - 1]) then |sections| - 1
    else LastReached(y, sections[..|sections| - 1])
  }

  /** The active section is `home` when no section is reached, and otherwise the id of the last
      reached one. */
  lemma {:induction false} ActiveSectionIsLastReached(y: real, sections: seq<Section>)
    ensures ActiveSection(y, sections) == if LastReached(y, sections) < 0 then "home" else sections[LastReached(y, sections)].id
    decreases |sections|
  {
    if sections != [] {
      var n := |sections| - 1;
      ActiveSectionIsLastReached(y, sections[..n]);
      if !Reached(y, sections[n]) && LastReached(y, sections[..n]) >= 0 {
        assert sections[..n][LastReached(y, sections[..n])] == sections[LastReached(y, sections)];
      }
    }
  }

  /** A stored mode that the page may restore. */
  predicate IsModeName(saved: Option<string>)
  {
    saved == Some("professional") || saved == Some("creative")
  }

  /** The state after restoring the saved mode: the mode is set only to a known name, and
      nothing else changes. */
  function Restored(s: State, saved: Option<string>): (r: State)
    ensures IsModeName(saved) ==> Lookup(r, "mode") == Str(saved.value) && PropsOf(r).isCreative != PropsOf(r).isProfessional
    ensures !IsModeName(saved) ==> r == s
    ensures forall k :: k != "mode" ==> Lookup(r, k) == Lookup(s, k) && (k in r <==> k in s)
  {
    if IsModeName(saved) then Assign(s, "mode", Str(saved.value)) else s
  }

  /** The mode toggle's target: professional from creative, creative from anything else. */
  function NextMode(s: State): (m: string)
    ensures m == "professional" <==> PropsOf(s).isCreative
    ensures m == "creative" <==> !PropsOf(s).isCreative
  {
    if PropsOf(s).isCreative then "professional" else "creative"
  }

  /** Two clicks of the mode toggle restore a creative or professional page. */
  lemma ModeToggleTwice(s: State)
    requires Lookup(s, "mode") in {Str("creative"), Str("professional")}
    ensures Assign(Assign(s, "mode", Str(NextMode(s))), "mode", Str(NextMode(Assign(s, "mode", Str(NextMode(s)))))) == s
  {
    var once := Assign(s, "mode", Str(NextMode(s)));
    assert Lookup(once, "mode") != Lookup(s, "mode");
    assert once == s["mode" := Str(NextMode(s))];
  }

  // ---------------------------------------------------------------------------------------------
  // The store

  /** What one subscriber receives. */
  datatype Notification = Notification(subscriber: nat, props: Props, changedKeys: seq<string>)

  /** Every subscriber, in subscription order, with the same props and keys. */
  function Broadcast(subs: seq<nat>, props: Props, keys: seq<string>): seq<Notification>
  {
    seq(|subs|, i requires 0 <= i < |subs| => Notification(subs[i], props, keys))
  }

  /** `AppState`: the state and the subscriber list (callbacks are identified by number). */
  class Store {
    var state: State
    var subscribers: seq<nat>

    constructor ()
      ensures state == InitialState && subscribers == []
    {
      state := InitialState;
      subscribers := [];
    }

    /** `get(key)`. */
    function Get(key: string): (v: Value)
      reads this
      ensures key in state ==> v == state[key]
      ensures key !in state ==> v == Undefined
    {
      Lookup(state, key)
    }

    /** `setState(updates)`: assign the differing keys, then, if any was assigned, notify every
        subscriber in order with the new props and the keys whose value changed. */
    method SetState(updates: seq<(string, Value)>) returns (notes: seq<Notification>)
      requires DistinctKeys(updates)
      modifies this
      ensures subscribers == old(subscribers)
      ensures state == Apply(old(state), updates)
      ensures notes == if Differing(old(state), updates) == [] then []
                       else Broadcast(subscribers, PropsOf(state), Differing(old(state), updates))
    {
      var prev := state;
      var changed := false;
      var i := 0;
      while i < |updates|
        invariant 0 <= i <= |updates|
        invariant state == Apply(prev, updates[..i]) && subscribers == old(subscribers)
        invariant changed <==> Differing(prev, updates[..i]) != []
      {
        var key := updates[i].0;
        var value := updates[i].1;
        AssignmentStep(prev, updates, i);
        if Lookup(state, key) != value {
          state := state[key := value];
          changed := true;
        }
        i := i + 1;
      }
      assert updates[..i] == updates;
      notes := [];
      if changed {
        forall j | 0 <= j < |updates| ensures Lookup(state, updates[j].0) == updates[j].1 {
          ApplyGet(prev, updates, j);
        }
        ChangedKeysAreDiffering(prev, state, updates);
        notes := Notify(PropsOf(state), ChangedKeys(prev, state, Keys(updates)));
      }
    }

    /** The notification loop of `setState`: every subscriber, in order. */
    method Notify(props: Props, changedKeys: seq<string>) returns (notes: seq<Notification>)
      ensures notes == Broadcast(subscribers, props, changedKeys)
    {
      notes := [];
      var k := 0;
      while k < |subscribers|
        invariant 0 <= k <= |subscribers|
        invariant notes == Broadcast(subscribers[..k], props, changedKeys)
      {
        notes := notes + [Notification(subscribers[k], props, changedKeys)];
        k := k + 1;
      }
      assert subscribers[..k] == subscribers;
    }

    /** `subscribe(fn)`. */
    method Subscribe(fn: nat)
      modifies this
      ensures state == old(state) && subscribers == old(subscribers) + [fn]
    {
      subscribers := subscribers + [fn];
    }

    /** The function `subscribe(fn)` returns: drop every occurrence of `fn`. */
    method Unsubscribe(fn: nat)
      modifies this
      ensures state == old(state) && subscribers == Without(old(subscribers), fn)
    {
      subscribers := Without(subscribers, fn);
    }

    /** `toggle(key)`: the negation always differs from the stored value, so the key is assigned
        and every subscriber hears of it. */
    method Toggle(key: string) returns (notes: seq<Notification>)
      modifies this
      ensures subscribers == old(subscribers)
      ensures state == Toggled(old(state), key)
      ensures notes == Broadcast(subscribers, PropsOf(state), [key])
    {
      var value := Negate(Lookup(state, key));
      ApplySingle(state, key, value);
      notes := SetState([(key, value)]);
    }

    /** The scroll handler's frame: the last reached section becomes active, and the bar counts
        as scrolled past 40 px. */
    method Scroll(y: real, sections: seq<Section>) returns (notes: seq<Notification>)
      modifies this
      ensures subscribers == old(subscribers)
      ensures state == Apply(old(state), [("scrolled", Bool(y > 40.0)), ("activeSection", Str(ActiveSection(y, sections)))])
      ensures Lookup(state, "scrolled") == Bool(y > 40.0)
      ensures Lookup(state, "activeSection") == Str(ActiveSection(y, sections))
      ensures var updates := [("scrolled", Bool(y > 40.0)), ("activeSection", Str(ActiveSection(y, sections)))];
              notes == if Differing(old(state), updates) == [] then []
                       else Broadcast(subscribers, PropsOf(state), Differing(old(state), updates))
    {
      var current := "home";
      var i := 0;
      while i < |sections|
        invariant 0 <= i <= |sections|
        invariant current == ActiveSection(y, sections[..i])
      {
        assert sections[..i + 1][..i] == sections[..i];
        if Reached(y, sections[i]) {
          current := sections[i].id;
        }
        i := i + 1;
      }
      assert sections[..i] == sections;
      var updates := [("scrolled", Bool(y > 40.0)), ("activeSection", Str(current))];
      ApplyGet(state, updates, 0);
      ApplyGet(state, updates, 1);
      notes := SetState(updates);
    }

    /** Restore the mode saved in local storage, if it names a mode. */
    method RestoreMode(saved: Option<string>) returns (notes: seq<Notification>)
      modifies this
      ensures subscribers == old(subscribers)
      ensures state == Restored(old(state), saved)
      ensures notes == if IsModeName(saved) && Lookup(old(state), "mode") != Str(saved.value)
                       then Broadcast(subscribers, PropsOf(state), ["mode"]) else []
    {
      notes := [];
      if saved == Some("professional") || saved == Some("creative") {
        ApplySingle(state, "mode", Str(saved.value));
        notes := SetState([("mode", Str(saved.value))]);
      }
    }

    /** The mode toggle button. */
    method ToggleMode() returns (notes: seq<Notification>)
      modifies this
      ensures subscribers == old(subscribers)
      ensures state == Assign(old(state), "mode", Str(NextMode(old(state))))
      ensures PropsOf(state).isCreative != PropsOf(old(state)).isCreative
      ensures notes == Broadcast(subscribers, PropsOf(state), ["mode"])
    {
      var next := if PropsOf(state).isCreative then "professional" else "creative";
      ApplySingle(state, "mode", Str(next));
      notes := SetState([("mode", Str(next))]);
    }
  }
}
