/**
 * `Input_Manager` of maze_game/input_manager.js: the default action -> keys
 * binding table, the key -> action map built from it on first use, and the
 * per-action `pressed` flags that key events write.
 *
 * The class is static in the source; the model holds its static state in one
 * instance.
 */
module Input {
  import opened Wrappers

  /** The `KEYS.INPUT` action names. */
  datatype Action = Up | Down | Right | Left | Forward | Back | Light | Debug | Shift | Control

  /** An entry of `#input_actions`: an action and its `keymap`. */
  datatype Binding = Binding(action: Action, keys: seq<string>)

  /** `#input_actions`, in declaration order. */
  function DefaultBindings(): (bs: seq<Binding>) {
    [ Binding(Forward, ["w", "arrowup"]),
      Binding(Back, ["s", "arrowdown"]),
      Binding(Right, ["d", "arrowright"]),
      Binding(Left, ["a", "arrowleft"]),
      Binding(Up, ["e"]),
      Binding(Down, ["q"]),
      Binding(Light, ["l"]),
      Binding(Debug, ["`"]),
      Binding(Shift, ["shift"]),
      Binding(Control, ["control"]) ]
  }

  /** `map.set(key, a)` for each key in order. */
  function SetKeys(m: map<string, Action>, keys: seq<string>, a: Action): (table: map<string, Action>) {
    if keys == [] then m else SetKeys(m, keys[..|keys| - 1], a)[keys[|keys| - 1] := a]
  }

  /** The map the nested loop of the `input_map` getter builds from empty: later bindings win. */
  function Invert(bs: seq<Binding>): (table: map<string, Action>) {
    if bs == [] then map[] else SetKeys(Invert(bs[..|bs| - 1]), bs[|bs| - 1].keys, bs[|bs| - 1].action)
  }

  /** No key is bound to two actions. */
  predicate KeysDisjoint(bs: seq<Binding>) {
    forall i, j, k :: 0 <= i < j < |bs| && k in bs[i].keys ==> k !in bs[j].keys
  }

  lemma {:induction false} SetKeysLookup(m: map<string, Action>, keys: seq<string>, a: Action, k: string)
    ensures k in SetKeys(m, keys, a) <==> k in m || k in keys
    ensures k in keys ==> SetKeys(m, keys, a)[k] == a
    ensures k !in keys && k in m ==> SetKeys(m, keys, a)[k] == m[k]
  {
    if keys != [] {
      SetKeysLookup(m, keys[..|keys| - 1], a, k);
      assert keys == keys[..|keys| - 1] + [keys[|keys| - 1]];
    }
  }

  /**
   * The inverted table binds exactly the keys of some entry, and, when no key
   * is shared, binds each key to the action whose keymap holds it.
   */
  lemma {:induction false} InvertLookup(bs: seq<Binding>, k: string)
    ensures k in Invert(bs) <==> exists i :: 0 <= i < |bs| && k in bs[i].keys
    ensures KeysDisjoint(bs) ==> forall i :: 0 <= i < |bs| && k in bs[i].keys ==> Invert(bs)[k] == bs[i].action
  {
    if bs != [] {
      var init, last := bs[..|bs| - 1], bs[|bs| - 1];
      InvertLookup(init, k);
      SetKeysLookup(Invert(init), last.keys, last.action, k);
      if k in Invert(bs) && k !in last.keys {
        var i :| 0 <= i < |init| && k in init[i].keys;
        assert bs[i] == init[i];
      }
      if exists i :: 0 <= i < |init| && k in init[i].keys {
        var i :| 0 <= i < |init| && k in init[i].keys;
        assert bs[i] == init[i];
      }
      if KeysDisjoint(bs) {
        assert KeysDisjoint(init) by {
          forall i, j, k' | 0 <= i < j < |init| && k' in init[i].keys
            ensures k' !in init[j].keys
          {
            assert bs[i] == init[i] && bs[j] == init[j];
          }
        }
        forall i | 0 <= i < |bs| && k in bs[i].keys
          ensures Invert(bs)[k] == bs[i].action
        {
          if i < |init| {
            assert bs[i] == init[i];
            assert k !in last.keys;
          }
        }
      }
    }
  }

  /** The default table shares no key between actions, so its inversion is a function of the key. */
  lemma DefaultKeysDisjoint()
    ensures KeysDisjoint(DefaultBindings())
  {
    var bs := DefaultBindings();
    forall i | 0 <= i < |bs|
      ensures forall j, k :: i < j < |bs| && k in bs[i].keys ==> k !in bs[j].keys
    {
    }
  }

  /** Upper-case ASCII letters to lower case; every other character unchanged. */
  function LowerChar(c: char): (d: char)
    ensures 'A' <= c <= 'Z' ==> 'a' <= d <= 'z'
    ensures !('A' <= c <= 'Z') ==> d == c
  {
    if 'A' <= c <= 'Z' then (c as int - 'A' as int + 'a' as int) as char else c
  }

  /** `toLowerCase`, on ASCII letters. */
  function ToLower(s: string): (t: string)
    ensures |t| == |s| && forall i :: 0 <= i < |s| ==> t[i] == LowerChar(s[i])
  {
    if s == [] then [] else [LowerChar(s[0])] + ToLower(s[1..])
  }

  /** Lowering twice is lowering once. */
  lemma {:induction false} ToLowerIdempotent(s: string)
    ensures ToLower(ToLower(s)) == ToLower(s)
  {
    if s != [] {
      ToLowerIdempotent(s[1..]);
    }
  }

  class InputManager {
    const bindings: seq<Binding>
    /** `#input_map`: empty until first use. */
    var inputMap: map<string, Action>
    /** The `pressed` entry of each action; absent until an event sets it. */
    var pressed: map<Action, bool>

    constructor()
      ensures bindings == DefaultBindings() && inputMap == map[] && pressed == map[]
    {
      bindings := DefaultBindings();
      inputMap := map[];
      pressed := map[];
    }

    /** The `input_map` getter: fills the map from the table while it is empty, then returns it. */
    method InputMap() returns (m: map<string, Action>)
      modifies this
      ensures inputMap == (if |old(inputMap)| == 0 then Invert(bindings) else old(inputMap))
      ensures m == inputMap && pressed == old(pressed)
    {
      if |inputMap| == 0 {
        var i := 0;
        while i < |bindings|
          invariant 0 <= i <= |bindings|
          invariant inputMap == Invert(bindings[..i])
          invariant pressed == old(pressed)
        {
          var b := bindings[i];
          var j := 0;
          while j < |b.keys|
            invariant 0 <= j <= |b.keys|
            invariant inputMap == SetKeys(Invert(bindings[..i]), b.keys[..j], b.action)
            invariant pressed == old(pressed)
          {
            inputMap := inputMap[b.keys[j] := b.action];
            assert b.keys[..j + 1][..j] == b.keys[..j];
            j := j + 1;
          }
          assert b.keys[..j] == b.keys;
          assert bindings[..i + 1][..i] == bindings[..i];
          i := i + 1;
        }
        assert bindings[..i] == bindings;
      }
      m := inputMap;
    }

    /** `get_input_action`: the action bound to the key, if any, after making sure the map is built. */
    method GetInputAction(key: string) returns (a: Option<Action>)
      modifies this
      ensures inputMap == (if |old(inputMap)| == 0 then Invert(bindings) else old(inputMap))
      ensures a == (if key in inputMap then Some(inputMap[key]) else None)
      ensures pressed == old(pressed)
    {
      var m := InputMap();
      a := if key in m then Some(m[key]) else None;
    }

    /**
     * `input_event`: looks up the lower-cased key; a bound key writes
     * `pressed` of exactly its action, an unbound key changes no flag.
     */
    method InputEvent(key: string, isPressed: bool) returns (a: Option<Action>)
      modifies this
      ensures inputMap == (if |old(inputMap)| == 0 then Invert(bindings) else old(inputMap))
      ensures a == (if ToLower(key) in inputMap then Some(inputMap[ToLower(key)]) else None)
      ensures a.Some? ==> pressed == old(pressed)[a.value := isPressed]
      ensures a.None? ==> pressed == old(pressed)
    {
      a := GetInputAction(ToLower(key));
      if a.Some? {
        pressed := pressed[a.value := isPressed];
      }
    }

    /** `is_key_down`: the last `pressed` value set for the action; `None` stands for undefined. */
    function IsKeyDown(action: Action): (p: Option<bool>)
      reads this
      ensures p.Some? <==> action in pressed
      ensures p.Some? ==> p.value == pressed[action]
    {
      if action in pressed then Some(pressed[action]) else None
    }
  }

  /** With the default table, both 'W' and 'w' are the forward key, and 'ArrowUp' is too. */
  lemma ForwardKeys()
    ensures var m := Invert(DefaultBindings());
      ToLower("W") in m && m[ToLower("W")] == Forward
      && ToLower("w") in m && m[ToLower("w")] == Forward
      && ToLower("ArrowUp") in m && m[ToLower("ArrowUp")] == Forward
  {
    DefaultKeysDisjoint();
    assert ToLower("W") == "w";
    assert ToLower("ArrowUp") == "arrowup";
    InvertLookup(DefaultBindings(), "w");
    InvertLookup(DefaultBindings(), "arrowup");
    assert "w" in DefaultBindings()[0].keys;
    assert "arrowup" in DefaultBindings()[0].keys;
  }

  /** Once built, the map binds every key of the default table to its own action. */
  lemma DefaultMapBindsEveryKey(i: int, k: string)
    requires 0 <= i < |DefaultBindings()| && k in DefaultBindings()[i].keys
    ensures k in Invert(DefaultBindings()) && Invert(DefaultBindings())[k] == DefaultBindings()[i].action
  {
    DefaultKeysDisjoint();
    InvertLookup(DefaultBindings(), k);
  }
}
