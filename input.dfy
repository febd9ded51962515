/** Keyboard edge detection of Input.hpp. The window is not modelled: the
    state GLFW would report for each key is passed to UpdateInput as a
    function. Any key ever queried has an entry; only those keys are polled. */
module Input {
  import opened StdMap

  datatype KeyState = KeyState(currentState: bool, lastState: bool)

  /** The value-initialised KeyState. */
  const Released := KeyState(false, false)

  /** Pressed now and not at the previous update. */
  predicate JustPressed(s: KeyState) {
    s.currentState && !s.lastState
  }

  /** What one UpdateInput does to the whole map. */
  function Advance(m: map<int, KeyState>, pressed: int -> bool): (r: map<int, KeyState>)
    ensures r.Keys == m.Keys
    ensures forall k :: k in m ==> r[k] == KeyState(pressed(k), m[k].currentState)
  {
    map k | k in m :: KeyState(pressed(k), m[k].currentState)
  }

  /** Keys without an entry are never polled: the polled state matters only on keys of the map. */
  lemma AdvanceIgnoresUnseenKeys(m: map<int, KeyState>, p: int -> bool, q: int -> bool)
    requires forall k :: k in m ==> p(k) == q(k)
    ensures Advance(m, p) == Advance(m, q)
  {
    var a, b := Advance(m, p), Advance(m, q);
    forall k | k in a
      ensures a[k] == b[k]
    {
    }
  }

  /** A press is reported for exactly one update while the key stays held. */
  lemma PressEdgeLastsOneUpdate(m: map<int, KeyState>, k: int, p1: int -> bool, p2: int -> bool)
    requires k in m && !m[k].currentState
    requires p1(k) && p2(k)
    ensures JustPressed(Advance(m, p1)[k])
    ensures !JustPressed(Advance(Advance(m, p1), p2)[k])
  {
  }

  /** After an update, a key reads as just pressed iff it is down now and was up before. */
  lemma JustPressedAfterAdvance(m: map<int, KeyState>, k: int, p: int -> bool)
    requires k in m
    ensures JustPressed(Advance(m, p)[k]) <==> p(k) && !m[k].currentState
  {
  }

  class InputState {
    var keyStates: map<int, KeyState>

    constructor ()
      ensures keyStates == map[]
    {
      keyStates := map[];
    }

    /** Input::UpdateInput: for every key in the map, the current state moves
        to lastState and the polled state becomes the current one. */
    method UpdateInput(pressed: int -> bool)
      modifies this
      ensures keyStates == Advance(old(keyStates), pressed)
    {
      ghost var before := keyStates;
      var remaining := keyStates.Keys;
      while remaining != {}
        invariant remaining <= before.Keys && keyStates.Keys == before.Keys
        invariant forall k :: k in before && k !in remaining ==>
          keyStates[k] == KeyState(pressed(k), before[k].currentState)
        invariant forall k :: k in remaining ==> keyStates[k] == before[k]
        decreases remaining
      {
        // std::map visits keys in order; each key is updated independently, so any order will do.
        var key := AnyKey(remaining);
        keyStates := keyStates[key := KeyState(pressed(key), keyStates[key].currentState)];
        remaining := remaining - {key};
      }
      assert forall k :: k in keyStates ==> keyStates[k] == Advance(before, pressed)[k];
    }

    /** Input::GetKey: whether the key is in `state` (true: down, false: up). */
    method GetKey(key: int, state: bool) returns (b: bool)
      modifies this
      ensures keyStates == Subscript(old(keyStates), key, Released).1
      ensures var s := Subscript(old(keyStates), key, Released).0;
        b == (if state then s.currentState else !s.currentState)
    {
      var p := Subscript(keyStates, key, Released);
      keyStates := p.1;
      b := if state then p.0.currentState else !p.0.currentState;
    }

    /** Input::GetKeyJustPressed. */
    method GetKeyJustPressed(key: int) returns (b: bool)
      modifies this
      ensures keyStates == Subscript(old(keyStates), key, Released).1
      ensures b == JustPressed(Subscript(old(keyStates), key, Released).0)
    {
      var p := Subscript(keyStates, key, Released);
      keyStates := p.1;
      b := JustPressed(p.0);
    }
  }

  /** A key queried for the first time reads as released; held down through the
      next update it is then reported as just pressed, and not after the one after. */
  method FirstQueryThenHold(k: int) returns (before: bool, edge: bool, later: bool)
    ensures !before && edge && !later
  {
    var input := new InputState();
    before := input.GetKey(k, true);
    input.UpdateInput(_ => true);
    edge := input.GetKeyJustPressed(k);
    input.UpdateInput(_ => true);
    later := input.GetKeyJustPressed(k);
  }
}
