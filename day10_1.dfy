/**
 * Day 10, part 1 (src/bin/day_10_1.rs): a machine has indicator lights
 * and buttons, each button wired to toggle some lights. The fewest button
 * presses that turn on exactly the target lights are found by trying every
 * press sequence of length 1, 2, ... in which no button is pressed twice in
 * a row; the answer sums the fewest presses over all machines.
 *
 * The joltage part of a machine's line is not used. Bytes are characters
 * (only ASCII input is modelled).
 */
module Day10Part1 {
  import opened Wrappers
  import opened Strings

  /** Press sequences of up to this length are tried. */
  const MAX_PRESSES: nat := 16
  /** The light array of a machine has this many entries. */
  const MAX_N_LIGHTS: nat := 10

  datatype Machine = Machine(targetLightStates: seq<bool>, buttonWiring: seq<seq<nat>>)

  /** The light array is full size and every button toggles lights inside
      it: what `from_spec` guarantees of the machines it builds. */
  predicate ValidMachine(m: Machine)
  {
    && |m.targetLightStates| == MAX_N_LIGHTS
    && forall b, k :: 0 <= b < |m.buttonWiring| && 0 <= k < |m.buttonWiring[b]| ==> m.buttonWiring[b][k] < MAX_N_LIGHTS
  }

  /* Parsing. */

  /** `Machine::new`: the target lights, padded with `false` to the full
      array. More than `MAX_N_LIGHTS` lights panic. */
  function NewMachine(targetLightStatesVec: seq<bool>, buttonWiring: seq<seq<nat>>): (m: Machine)
    requires |targetLightStatesVec| <= MAX_N_LIGHTS
    ensures |m.targetLightStates| == MAX_N_LIGHTS && m.buttonWiring == buttonWiring
    ensures forall i :: 0 <= i < MAX_N_LIGHTS ==>
              m.targetLightStates[i] == (i < |targetLightStatesVec| && targetLightStatesVec[i])
  {
    Machine(seq(MAX_N_LIGHTS, i requires 0 <= i < MAX_N_LIGHTS =>
                  if i < |targetLightStatesVec| then targetLightStatesVec[i] else false),
            buttonWiring)
  }

  /** The text between the first and last character. */
  function Inner(s: string): string
    requires |s| >= 2
  {
    s[1..|s| - 1]
  }

  /** The button numbers listed in one `(..)` group. */
  function ButtonNumbers(buttonStr: string): seq<string>
    requires |buttonStr| >= 2
  {
    Split(Inner(buttonStr), ',')
  }

  /** One button's group parses as `usize`s, each below `nLights`. */
  predicate ButtonParses(buttonStr: string, nLights: nat)
  {
    && |buttonStr| >= 2
    && forall t :: 0 <= t < |ButtonNumbers(buttonStr)| ==>
         var n := ParseNat(ButtonNumbers(buttonStr)[t], U64_MAX);
         n.Some? && n.value < nLights
  }

  /** `from_spec` does not panic: the line has a light group, then a
      joltage group last, every group is at least its two brackets long,
      every button number parses and names a light, and there are at most
      `MAX_N_LIGHTS` lights. */
  predicate SpecParses(spec: string)
  {
    var parts := Split(spec, ' ');
    && |parts| >= 2
    && 2 <= |parts[0]| <= MAX_N_LIGHTS + 2
    && forall k :: 1 <= k < |parts| - 1 ==> ButtonParses(parts[k], |parts[0]| - 2)
  }

  /** `from_spec`: a light's target is on exactly when its character in the
      light group is `#`; each button is wired to the lights its group
      lists. */
  function FromSpec(spec: string): (m: Machine)
    requires SpecParses(spec)
    ensures ValidMachine(m)
    ensures var lights := Inner(Split(spec, ' ')[0]);
            forall i :: 0 <= i < MAX_N_LIGHTS ==> (m.targetLightStates[i] <==> i < |lights| && lights[i] == '#')
    ensures |m.buttonWiring| == |Split(spec, ' ')| - 2
    ensures forall b :: 0 <= b < |m.buttonWiring| ==>
              var numbers := ButtonNumbers(Split(spec, ' ')[b + 1]);
              |m.buttonWiring[b]| == |numbers| &&
              forall t :: 0 <= t < |numbers| ==> Some(m.buttonWiring[b][t]) == ParseNat(numbers[t], U64_MAX)
  {
    var parts := Split(spec, ' ');
    var specLights := parts[0];
    var specButtons := parts[1..|parts| - 1];
    var targetLightStates := seq(|specLights| - 2, i requires 0 <= i < |specLights| - 2 => Inner(specLights)[i] == '#');
    var nLights := |targetLightStates|;
    assert forall b :: 0 <= b < |specButtons| ==> specButtons[b] == parts[b + 1];
    var buttonWiring := seq(|specButtons|, b requires 0 <= b < |specButtons| =>
                          var numbers := ButtonNumbers(specButtons[b]);
                          seq(|numbers|, t requires 0 <= t < |numbers| => ParseNat(numbers[t], U64_MAX).value));
    NewMachine(targetLightStates, buttonWiring)
  }

  /* Pressing buttons. */

  /** How often the presses `buttons` toggle light `i`: each press toggles
      it once per time the pressed button lists it. */
  function Toggles(wiring: seq<seq<nat>>, buttons: seq<nat>, i: nat): nat
    requires forall k :: 0 <= k < |buttons| ==> buttons[k] < |wiring|
  {
    if |buttons| == 0 then 0
    else Toggles(wiring, buttons[..|buttons| - 1], i) + multiset(wiring[buttons[|buttons| - 1]])[i]
  }

  /** Whether light `i` is on after the presses: it was toggled an odd
      number of times. */
  predicate Lit(wiring: seq<seq<nat>>, buttons: seq<nat>, i: nat)
    requires forall k :: 0 <= k < |buttons| ==> buttons[k] < |wiring|
  {
    Toggles(wiring, buttons, i) % 2 == 1
  }

  /** Every press names a button of the machine. */
  predicate Presses(m: Machine, buttons: seq<nat>)
  {
    forall k :: 0 <= k < |buttons| ==> buttons[k] < |m.buttonWiring|
  }

  /** After the presses, the lights show the machine's target. */
  predicate Solves(m: Machine, buttons: seq<nat>)
    requires ValidMachine(m) && Presses(m, buttons)
  {
    forall i :: 0 <= i < MAX_N_LIGHTS ==> Lit(m.buttonWiring, buttons, i) == m.targetLightStates[i]
  }

  /** Toggling a light for every entry of `wires` flips exactly the lights
      listed an odd number of times. */
  method ToggleLights(lightStates: array<bool>, wires: seq<nat>)
    requires forall t :: 0 <= t < |wires| ==> wires[t] < lightStates.Length
    modifies lightStates
    ensures forall j :: 0 <= j < lightStates.Length ==>
              lightStates[j] == (old(lightStates[j]) != (multiset(wires)[j] % 2 == 1))
  {
    for w := 0 to |wires|
      invariant forall j :: 0 <= j < lightStates.Length ==>
                  lightStates[j] == (old(lightStates[j]) != (multiset(wires[..w])[j] % 2 == 1))
    {
      forall j | 0 <= j < lightStates.Length
        ensures multiset(wires[..w + 1])[j] == multiset(wires[..w])[j] + (if wires[w] == j then 1 else 0)
      {
        PrefixCount(wires, w, j);
      }
      lightStates[wires[w]] := !lightStates[wires[w]];
    }
    assert wires[..|wires|] == wires;
  }

  /** `test_button_config`: toggle a light array, all off at first, for
      every light of every pressed button; then compare it with the
      target. */
  method TestButtonConfig(m: Machine, buttons: seq<nat>) returns (result: bool)
    requires ValidMachine(m) && Presses(m, buttons)
    ensures result <==> Solves(m, buttons)
  {
    var lightStates := new bool[MAX_N_LIGHTS](_ => false);
    for k := 0 to |buttons|
      invariant forall j :: 0 <= j < MAX_N_LIGHTS ==> lightStates[j] == Lit(m.buttonWiring, buttons[..k], j)
    {
      assert buttons[..k + 1][..k] == buttons[..k];
      ToggleLights(lightStates, m.buttonWiring[buttons[k]]);
    }
    assert buttons[..|buttons|] == buttons;
    result := lightStates[..] == m.targetLightStates;
    assert result ==> forall j :: 0 <= j < MAX_N_LIGHTS ==> lightStates[..][j] == m.targetLightStates[j];
  }

  /** One more entry of a prefix counts once more if it is `j`. */
  lemma PrefixCount(s: seq<nat>, w: nat, j: nat)
    requires w < |s|
    ensures multiset(s[..w + 1])[j] == multiset(s[..w])[j] + (if s[w] == j then 1 else 0)
  {
    assert s[..w + 1] == s[..w] + [s[w]];
  }

  /* The order of presses does not matter. */

  lemma {:induction false} TogglesConcat(wiring: seq<seq<nat>>, a: seq<nat>, b: seq<nat>, i: nat)
    requires forall k :: 0 <= k < |a| ==> a[k] < |wiring|
    requires forall k :: 0 <= k < |b| ==> b[k] < |wiring|
    ensures Toggles(wiring, a + b, i) == Toggles(wiring, a, i) + Toggles(wiring, b, i)
    decreases |b|
  {
    if |b| > 0 {
      assert (a + b)[..|a + b| - 1] == a + b[..|b| - 1];
      TogglesConcat(wiring, a, b[..|b| - 1], i);
    } else {
      assert a + b == a;
    }
  }

  lemma TogglesSingle(wiring: seq<seq<nat>>, x: nat, i: nat)
    requires x < |wiring|
    ensures Toggles(wiring, [x], i) == multiset(wiring[x])[i]
  {
    assert [x][..0] == [];
  }

  /** Every entry of `s` is below `n`. */
  predicate Below(s: seq<nat>, n: nat)
  {
    forall k :: 0 <= k < |s| ==> s[k] < n
  }

  /** Taking one press out of a sequence takes away its toggles. */
  lemma TogglesRemove(wiring: seq<seq<nat>>, a: seq<nat>, j: nat, i: nat)
    requires forall k :: 0 <= k < |a| ==> a[k] < |wiring|
    requires j < |a|
    ensures Below(a[..j] + a[j + 1..], |wiring|)
    ensures Toggles(wiring, a, i) == Toggles(wiring, a[..j] + a[j + 1..], i) + multiset(wiring[a[j]])[i]
  {
    var front, back := a[..j], a[j + 1..];
    assert forall k :: 0 <= k < |front| ==> front[k] == a[k];
    assert forall k :: 0 <= k < |back| ==> back[k] == a[j + 1 + k];
    assert a == (front + [a[j]]) + back;
    TogglesConcat(wiring, front + [a[j]], back, i);
    TogglesConcat(wiring, front, [a[j]], i);
    TogglesConcat(wiring, front, back, i);
    TogglesSingle(wiring, a[j], i);
  }

  /** Every press of a permutation of valid presses is valid. */
  lemma PermutationBelow(a: seq<nat>, b: seq<nat>, n: nat)
    requires forall k :: 0 <= k < |a| ==> a[k] < n
    requires multiset(a) == multiset(b)
    ensures forall k :: 0 <= k < |b| ==> b[k] < n
  {
    forall k | 0 <= k < |b|
      ensures b[k] < n
    {
      assert b[k] in multiset(a);
    }
  }

  /** The press `x` occurs in `a`; with one occurrence taken out, `a` is a
      permutation of `b` without its last press `x`. */
  lemma RemoveLast(a: seq<nat>, b: seq<nat>) returns (j: nat)
    requires multiset(a) == multiset(b) && |b| > 0
    ensures j < |a| && a[j] == b[|b| - 1]
    ensures multiset(a[..j] + a[j + 1..]) == multiset(b[..|b| - 1])
  {
    var x := b[|b| - 1];
    assert b == b[..|b| - 1] + [x];
    assert x in multiset(a);
    j :| 0 <= j < |a| && a[j] == x;
    assert a == a[..j] + [x] + a[j + 1..];
    assert multiset(a) == multiset(a[..j]) + multiset{x} + multiset(a[j + 1..]);
    assert multiset(a[..j] + a[j + 1..]) == multiset(a[..j]) + multiset(a[j + 1..]);
    assert multiset(a[..j] + a[j + 1..]) == multiset(a) - multiset{x};
    assert multiset(b[..|b| - 1]) == multiset(b) - multiset{x};
  }

  /** Pressing the same buttons in any order toggles every light as often. */
  lemma {:induction false} TogglesPermutation(wiring: seq<seq<nat>>, a: seq<nat>, b: seq<nat>, i: nat)
    requires forall k :: 0 <= k < |a| ==> a[k] < |wiring|
    requires multiset(a) == multiset(b)
    ensures forall k :: 0 <= k < |b| ==> b[k] < |wiring|
    ensures Toggles(wiring, a, i) == Toggles(wiring, b, i)
    decreases |a|
  {
    PermutationBelow(a, b, |wiring|);
    if |b| > 0 {
      var j := RemoveLast(a, b);
      TogglesRemove(wiring, a, j, i);
      TogglesPermutation(wiring, a[..j] + a[j + 1..], b[..|b| - 1], i);
    }
  }

  /** Whether a machine is solved depends on which buttons are pressed how
      often, not on the order of the presses. */
  lemma SolvesPermutation(m: Machine, a: seq<nat>, b: seq<nat>)
    requires ValidMachine(m) && Presses(m, a) && multiset(a) == multiset(b)
    ensures Presses(m, b)
    ensures Solves(m, a) <==> Solves(m, b)
  {
    TogglesPermutation(m.buttonWiring, a, b, 0);
    forall i | 0 <= i < MAX_N_LIGHTS
      ensures Toggles(m.buttonWiring, a, i) == Toggles(m.buttonWiring, b, i)
    {
      TogglesPermutation(m.buttonWiring, a, b, i);
    }
  }

  /** Pressing a button twice in a row changes no light: removing such a
      double press keeps every light's state. */
  lemma DoublePressCancels(m: Machine, c: seq<nat>, k: nat)
    requires ValidMachine(m) && Presses(m, c) && k + 1 < |c| && c[k] == c[k + 1]
    ensures Presses(m, c[..k] + c[k + 2..])
    ensures forall i :: 0 <= i < MAX_N_LIGHTS ==> (Lit(m.buttonWiring, c, i) <==> Lit(m.buttonWiring, c[..k] + c[k + 2..], i))
  {
    var w := m.buttonWiring;
    var once := c[..k] + c[k + 1..];
    assert once[..k] + once[k + 1..] == c[..k] + c[k + 2..];
    assert once[k] == c[k];
    forall i | 0 <= i < MAX_N_LIGHTS
      ensures Lit(w, c, i) <==> Lit(w, c[..k] + c[k + 2..], i)
    {
      TogglesRemove(w, c, k, i);
      TogglesRemove(w, once, k, i);
    }
    TogglesRemove(w, c, k, 0);
    TogglesRemove(w, once, k, 0);
  }

  /* The press sequences tried. */

  /** `n` presses of `nButtons` buttons, none pressed twice in a row. */
  predicate Sensible(c: seq<nat>, nPresses: nat, nButtons: nat)
  {
    && |c| == nPresses
    && (forall k :: 0 <= k < |c| ==> c[k] < nButtons)
    && (forall k :: 0 < k < |c| ==> c[k - 1] != c[k])
  }

  /** The sequences of `prev` that do not end in `n`, each with `n`
      appended, in order. */
  function Extend(prev: seq<seq<nat>>, n: nat): seq<seq<nat>>
    requires forall k :: 0 <= k < |prev| ==> |prev[k]| >= 1
  {
    if |prev| == 0 then []
    else
      var list := prev[|prev| - 1];
      Extend(prev[..|prev| - 1], n) + (if list[|list| - 1] == n then [] else [list + [n]])
  }

  /** `Extend` for the buttons `0` to `k - 1`, one after the other. */
  function ExtendAll(prev: seq<seq<nat>>, k: nat): seq<seq<nat>>
    requires forall j :: 0 <= j < |prev| ==> |prev[j]| >= 1
  {
    if k == 0 then [] else ExtendAll(prev, k - 1) + Extend(prev, k - 1)
  }

  /** `generate_button_configs`: one press of each button, or every
      sequence one press shorter extended by each button in turn, except
      by the button it ends with. Fewer than one press panics. */
  function GenerateButtonConfigs(nPresses: nat, nButtons: nat): (configs: seq<seq<nat>>)
    requires nPresses >= 1
    ensures forall k :: 0 <= k < |configs| ==> |configs[k]| == nPresses
  {
    if nPresses == 1 then seq(nButtons, n requires 0 <= n < nButtons => [n])
    else
      var previous := GenerateButtonConfigs(nPresses - 1, nButtons);
      ExtendAllLengths(previous, nButtons, nPresses - 1);
      ExtendAll(previous, nButtons)
  }

  lemma {:induction false} ExtendLengths(prev: seq<seq<nat>>, n: nat, len: nat)
    requires len >= 1 && forall k :: 0 <= k < |prev| ==> |prev[k]| == len
    ensures forall k :: 0 <= k < |Extend(prev, n)| ==> |Extend(prev, n)[k]| == len + 1
  {
    if |prev| > 0 {
      ExtendLengths(prev[..|prev| - 1], n, len);
    }
  }

  lemma {:induction false} ExtendAllLengths(prev: seq<seq<nat>>, k: nat, len: nat)
    requires len >= 1 && forall j :: 0 <= j < |prev| ==> |prev[j]| == len
    ensures forall j :: 0 <= j < |ExtendAll(prev, k)| ==> |ExtendAll(prev, k)[j]| == len + 1
  {
    if k > 0 {
      ExtendAllLengths(prev, k - 1, len);
      ExtendLengths(prev, k - 1, len);
    }
  }

  /** A sequence is made by `Extend` exactly when it is a sequence of
      `prev` not ending in `n`, with `n` appended. */
  lemma {:induction false} ExtendMembers(prev: seq<seq<nat>>, n: nat, c: seq<nat>)
    requires forall k :: 0 <= k < |prev| ==> |prev[k]| >= 1
    ensures c in Extend(prev, n) <==> |c| >= 2 && c[|c| - 1] == n && c[..|c| - 1] in prev && c[|c| - 2] != n
  {
    if |prev| > 0 {
      var init := prev[..|prev| - 1];
      var list := prev[|prev| - 1];
      ExtendMembers(init, n, c);
      assert prev == init + [list];
      if c == list + [n] {
        assert c[..|c| - 1] == list;
      }
      if |c| >= 2 && c[..|c| - 1] == list {
        assert c == list + [c[|c| - 1]];
      }
    }
  }

  lemma {:induction false} ExtendAllMembers(prev: seq<seq<nat>>, k: nat, c: seq<nat>)
    requires forall j :: 0 <= j < |prev| ==> |prev[j]| >= 1
    ensures c in ExtendAll(prev, k) <==> |c| >= 2 && c[|c| - 1] < k && c[..|c| - 1] in prev && c[|c| - 2] != c[|c| - 1]
  {
    if k > 0 {
      ExtendAllMembers(prev, k - 1, c);
      ExtendMembers(prev, k - 1, c);
    }
  }

  /** The sequences generated are exactly the sensible ones. */
  lemma {:induction false} GenerateMembers(nPresses: nat, nButtons: nat, c: seq<nat>)
    requires nPresses >= 1
    ensures c in GenerateButtonConfigs(nPresses, nButtons) <==> Sensible(c, nPresses, nButtons)
  {
    if nPresses == 1 {
      SinglePressMembers(nButtons, c);
    } else {
      if |c| >= 2 {
        GenerateMembers(nPresses - 1, nButtons, c[..|c| - 1]);
      }
      GenerateMembersStep(nPresses, nButtons, c);
    }
  }

  /** The inductive step of `GenerateMembers`: if the sequences of one
      press fewer are exactly the sensible ones, so are those extended by
      one press. */
  lemma GenerateMembersStep(nPresses: nat, nButtons: nat, c: seq<nat>)
    requires nPresses >= 2
    requires |c| >= 2 ==>
      (c[..|c| - 1] in GenerateButtonConfigs(nPresses - 1, nButtons) <==> Sensible(c[..|c| - 1], nPresses - 1, nButtons))
    ensures c in GenerateButtonConfigs(nPresses, nButtons) <==> Sensible(c, nPresses, nButtons)
  {
    var previous := GenerateButtonConfigs(nPresses - 1, nButtons);
    ExtendAllMembers(previous, nButtons, c);
    if |c| >= 2 {
      SensibleSnoc(c, nPresses, nButtons);
    }
  }

  /** The one-press sequences generated are exactly the single buttons. */
  lemma SinglePressMembers(nButtons: nat, c: seq<nat>)
    ensures c in GenerateButtonConfigs(1, nButtons) <==> Sensible(c, 1, nButtons)
  {
    if Sensible(c, 1, nButtons) {
      assert GenerateButtonConfigs(1, nButtons)[c[0]] == c;
    }
  }

  /** A sequence of presses is sensible exactly when its prefix is and its
      last press is a button other than the one before. */
  lemma SensibleSnoc(c: seq<nat>, nPresses: nat, nButtons: nat)
    requires |c| >= 2 && nPresses >= 2
    ensures Sensible(c, nPresses, nButtons)
            <==> Sensible(c[..|c| - 1], nPresses - 1, nButtons) && c[|c| - 1] < nButtons && c[|c| - 2] != c[|c| - 1]
  {
    var init := c[..|c| - 1];
    assert forall k :: 0 <= k < |init| ==> init[k] == c[k];
  }

  /* No sequence twice, and how many. */

  /** No sequence is listed twice. */
  predicate Distinct(s: seq<seq<nat>>)
  {
    forall a, b :: 0 <= a < b < |s| ==> s[a] != s[b]
  }

  lemma DistinctConcat(s: seq<seq<nat>>, t: seq<seq<nat>>)
    requires Distinct(s) && Distinct(t)
    requires forall c :: c in s ==> c !in t
    ensures Distinct(s + t)
  {
    forall a, b | 0 <= a < b < |s + t|
      ensures (s + t)[a] != (s + t)[b]
    {
      if a < |s| && b >= |s| {
        assert (s + t)[a] in s;
        assert (s + t)[b] == t[b - |s|];
      }
    }
  }

  lemma {:induction false} ExtendDistinct(prev: seq<seq<nat>>, n: nat)
    requires forall k :: 0 <= k < |prev| ==> |prev[k]| >= 1
    requires Distinct(prev)
    ensures Distinct(Extend(prev, n))
  {
    if |prev| > 0 {
      var init := prev[..|prev| - 1];
      var list := prev[|prev| - 1];
      ExtendDistinct(init, n);
      assert list !in init by {
        forall j | 0 <= j < |init|
          ensures init[j] != list
        {
          assert init[j] == prev[j];
        }
      }
      assert (list + [n])[..|list|] == list;
      forall c | c in Extend(init, n)
        ensures c !in [list + [n]]
      {
        ExtendMembers(init, n, c);
      }
      DistinctConcat(Extend(init, n), if list[|list| - 1] == n then [] else [list + [n]]);
    }
  }

  lemma {:induction false} ExtendAllDistinct(prev: seq<seq<nat>>, k: nat)
    requires forall j :: 0 <= j < |prev| ==> |prev[j]| >= 1
    requires Distinct(prev)
    ensures Distinct(ExtendAll(prev, k))
  {
    if k > 0 {
      ExtendAllDistinct(prev, k - 1);
      ExtendDistinct(prev, k - 1);
      var earlier, latest := ExtendAll(prev, k - 1), Extend(prev, k - 1);
      forall c | c in earlier
        ensures c !in latest
      {
        EarlierEndsBelow(prev, k - 1, c);
      }
      DistinctConcat(earlier, latest);
    }
  }

  /** A sequence extended by a button below `k` is not one extended by `k`. */
  lemma EarlierEndsBelow(prev: seq<seq<nat>>, k: nat, c: seq<nat>)
    requires forall j :: 0 <= j < |prev| ==> |prev[j]| >= 1
    requires c in ExtendAll(prev, k)
    ensures c !in Extend(prev, k)
  {
    ExtendAllMembers(prev, k, c);
    ExtendMembers(prev, k, c);
  }

  /** Each sensible sequence is generated exactly once. */
  lemma {:induction false} GenerateDistinct(nPresses: nat, nButtons: nat)
    requires nPresses >= 1
    ensures Distinct(GenerateButtonConfigs(nPresses, nButtons))
  {
    if nPresses > 1 {
      GenerateDistinct(nPresses - 1, nButtons);
      ExtendAllDistinct(GenerateButtonConfigs(nPresses - 1, nButtons), nButtons);
    }
  }

  /** The number of sequences of `prev` ending in `n`. */
  function EndingIn(prev: seq<seq<nat>>, n: nat): nat
    requires forall k :: 0 <= k < |prev| ==> |prev[k]| >= 1
  {
    if |prev| == 0 then 0
    else
      var list := prev[|prev| - 1];
      EndingIn(prev[..|prev| - 1], n) + (if list[|list| - 1] == n then 1 else 0)
  }

  /** The number of sequences of `prev` ending below `k`. */
  function EndingBelow(prev: seq<seq<nat>>, k: nat): nat
    requires forall j :: 0 <= j < |prev| ==> |prev[j]| >= 1
  {
    if |prev| == 0 then 0
    else
      var list := prev[|prev| - 1];
      EndingBelow(prev[..|prev| - 1], k) + (if list[|list| - 1] < k then 1 else 0)
  }

  lemma {:induction false} ExtendCount(prev: seq<seq<nat>>, n: nat)
    requires forall k :: 0 <= k < |prev| ==> |prev[k]| >= 1
    ensures |Extend(prev, n)| + EndingIn(prev, n) == |prev|
  {
    if |prev| > 0 {
      ExtendCount(prev[..|prev| - 1], n);
    }
  }

  lemma {:induction false} EndingBelowStep(prev: seq<seq<nat>>, k: nat)
    requires forall j :: 0 <= j < |prev| ==> |prev[j]| >= 1
    ensures EndingBelow(prev, k + 1) == EndingBelow(prev, k) + EndingIn(prev, k)
  {
    if |prev| > 0 {
      EndingBelowStep(prev[..|prev| - 1], k);
    }
  }

  lemma {:induction false} EndingBelowAll(prev: seq<seq<nat>>, k: nat)
    requires forall j :: 0 <= j < |prev| ==> |prev[j]| >= 1 && prev[j][|prev[j]| - 1] < k
    ensures EndingBelow(prev, k) == |prev|
  {
    if |prev| > 0 {
      EndingBelowAll(prev[..|prev| - 1], k);
    }
  }

  lemma {:induction false} ExtendAllCount(prev: seq<seq<nat>>, k: nat)
    requires forall j :: 0 <= j < |prev| ==> |prev[j]| >= 1
    ensures |ExtendAll(prev, k)| + EndingBelow(prev, k) == k * |prev|
  {
    if k > 0 {
      ExtendAllCount(prev, k - 1);
      ExtendCount(prev, k - 1);
      EndingBelowStep(prev, k - 1);
      assert |ExtendAll(prev, k)| == |ExtendAll(prev, k - 1)| + |Extend(prev, k - 1)|;
      MulStep(k, |prev|);
    } else {
      EndingBelowAll0(prev);
    }
  }

  lemma MulStep(k: nat, p: nat)
    requires k >= 1
    ensures k * p == (k - 1) * p + p
  {
  }

  lemma {:induction false} EndingBelowAll0(prev: seq<seq<nat>>)
    requires forall j :: 0 <= j < |prev| ==> |prev[j]| >= 1
    ensures EndingBelow(prev, 0) == 0
  {
    if |prev| > 0 {
      EndingBelowAll0(prev[..|prev| - 1]);
    }
  }

  function Pow(b: nat, e: nat): nat
  {
    if e == 0 then 1 else b * Pow(b, e - 1)
  }

  /** Arithmetic of one step of the count: if `p == a * q` sequences
      become `a * p - p`, they are `a * ((a - 1) * q)`. */
  lemma CountStep(a: nat, p: nat, q: nat)
    requires a >= 1 && p == a * q
    ensures a * p - p == a * ((a - 1) * q)
  {
    calc {
      a * p - p;
      (a - 1) * p;
      (a - 1) * (a * q);
      a * ((a - 1) * q);
    }
  }

  /** There are `nButtons * (nButtons - 1)^(nPresses - 1)` sequences: any
      first button, then any button but the one before. */
  lemma {:induction false} GenerateCount(nPresses: nat, nButtons: nat)
    requires nPresses >= 1 && nButtons >= 1
    ensures |GenerateButtonConfigs(nPresses, nButtons)| == nButtons * Pow(nButtons - 1, nPresses - 1)
  {
    if nPresses > 1 {
      var previous := GenerateButtonConfigs(nPresses - 1, nButtons);
      GenerateCount(nPresses - 1, nButtons);
      ExtendAllCount(previous, nButtons);
      forall j | 0 <= j < |previous|
        ensures previous[j][|previous[j]| - 1] < nButtons
      {
        assert previous[j] in previous;
        GenerateMembers(nPresses - 1, nButtons, previous[j]);
      }
      EndingBelowAll(previous, nButtons);
      assert |GenerateButtonConfigs(nPresses, nButtons)| + |previous| == nButtons * |previous|;
      CountStep(nButtons, |previous|, Pow(nButtons - 1, nPresses - 2));
    }
  }

  /* The search. */

  /** The presses name buttons of the machine and leave it solved. */
  predicate Solution(m: Machine, c: seq<nat>)
    requires ValidMachine(m)
  {
    Presses(m, c) && Solves(m, c)
  }

  /** Some sequence of `n` presses, none repeated at once, solves the
      machine. */
  ghost predicate SolvableIn(m: Machine, n: nat)
    requires ValidMachine(m)
  {
    exists c :: Sensible(c, n, |m.buttonWiring|) && Solution(m, c)
  }

  /** Fewer than `MAX_PRESSES` presses solve the machine: the search of
      `find_minimum_button_presses` does not panic. */
  ghost predicate Solvable(m: Machine)
  {
    ValidMachine(m) && exists n :: 1 <= n < MAX_PRESSES && SolvableIn(m, n)
  }

  /** The least `n` from `from` on for which `SolvableIn` holds. */
  ghost function LeastFrom(m: Machine, from: nat): (n: nat)
    requires ValidMachine(m) && 1 <= from
    requires exists n :: from <= n < MAX_PRESSES && SolvableIn(m, n)
    ensures from <= n < MAX_PRESSES && SolvableIn(m, n)
    ensures forall n' :: from <= n' < n ==> !SolvableIn(m, n')
    decreases MAX_PRESSES - from
  {
    if SolvableIn(m, from) then from
    else
      var w :| from <= w < MAX_PRESSES && SolvableIn(m, w);
      assert from + 1 <= w;
      LeastFrom(m, from + 1)
  }

  /** The fewest presses, none repeated at once, that solve the machine. */
  ghost function MinimumPresses(m: Machine): (n: nat)
    requires Solvable(m)
    ensures 1 <= n < MAX_PRESSES && SolvableIn(m, n)
    ensures forall n' :: 1 <= n' < n ==> !SolvableIn(m, n')
  {
    LeastFrom(m, 1)
  }

  /** `find_minimum_button_presses`: try the sequences of one press, then
      of two, and so on, and return the length of the first that solves
      the machine. It panics when none of fewer than `MAX_PRESSES` does. */
  method FindMinimumButtonPresses(m: Machine) returns (nPresses: nat)
    requires Solvable(m)
    ensures nPresses == MinimumPresses(m)
  {
    var nButtons := |m.buttonWiring|;
    var n := 1;
    while n < MAX_PRESSES
      invariant 1 <= n <= MAX_PRESSES
      invariant forall n' :: 1 <= n' < n ==> !SolvableIn(m, n')
      decreases MAX_PRESSES - n
    {
      var buttonConfigs := GenerateButtonConfigs(n, nButtons);
      for k := 0 to |buttonConfigs|
        invariant forall k' :: 0 <= k' < k ==> !Solution(m, buttonConfigs[k'])
      {
        var buttons := buttonConfigs[k];
        GenerateMembers(n, nButtons, buttons);
        var ok := TestButtonConfig(m, buttons);
        if ok {
          assert Solution(m, buttons);
          assert SolvableIn(m, n);
          return |buttons|;
        }
      }
      forall c | Sensible(c, n, nButtons)
        ensures !Solution(m, c)
      {
        GenerateMembers(n, nButtons, c);
      }
      n := n + 1;
    }
    assert false;
  }

  /** A press sequence with a button pressed twice in a row can be shortened
      to one without, lighting the same lights. */
  lemma {:induction false} RemoveDoublePresses(m: Machine, c: seq<nat>) returns (d: seq<nat>)
    requires ValidMachine(m) && Presses(m, c)
    ensures Sensible(d, |d|, |m.buttonWiring|) && |d| <= |c|
    ensures Presses(m, d) && (Solves(m, c) <==> Solves(m, d))
    decreases |c|
  {
    if Sensible(c, |c|, |m.buttonWiring|) {
      d := c;
    } else {
      var k :| 0 < k < |c| && c[k - 1] == c[k];
      DoublePressCancels(m, c, k - 1);
      d := RemoveDoublePresses(m, c[..k - 1] + c[k + 1..]);
    }
  }

  /** Leaving out sequences with a double press loses nothing: any presses
      at all that solve the machine, fewer than the answer, solve it only
      because all its target lights are off. */
  lemma NoShorterSolution(m: Machine, c: seq<nat>)
    requires Solvable(m) && Presses(m, c) && Solves(m, c)
    requires |c| < MinimumPresses(m)
    ensures forall i :: 0 <= i < MAX_N_LIGHTS ==> !m.targetLightStates[i]
  {
    var d := RemoveDoublePresses(m, c);
    if |d| >= 1 {
      assert Solution(m, d);
      assert SolvableIn(m, |d|);
      assert false;
    }
    assert d == [];
    forall i | 0 <= i < MAX_N_LIGHTS
      ensures !m.targetLightStates[i]
    {
      assert !Lit(m.buttonWiring, d, i);
    }
  }

  /** Each line describes a machine that fewer than `MAX_PRESSES` presses
      solve: `calculate_result` does not panic. */
  ghost predicate ValidInput(lines: seq<string>)
  {
    forall l :: 0 <= l < |lines| ==> SpecParses(lines[l]) && Solvable(FromSpec(lines[l]))
  }

  /** The fewest presses of the first `count` machines, summed. */
  ghost function TotalPresses(lines: seq<string>, count: nat): (total: nat)
    requires ValidInput(lines) && count <= |lines|
    ensures count <= total <= (MAX_PRESSES - 1) * count
  {
    if count == 0 then 0
    else TotalPresses(lines, count - 1) + MinimumPresses(FromSpec(lines[count - 1]))
  }

  /** `calculate_result`: the fewest presses of every machine, summed. */
  method CalculateResult(lines: seq<string>) returns (result: nat)
    requires ValidInput(lines)
    ensures result == TotalPresses(lines, |lines|)
    ensures |lines| <= result <= (MAX_PRESSES - 1) * |lines|
  {
    result := 0;
    for l := 0 to |lines|
      invariant result == TotalPresses(lines, l)
    {
      var presses := FindMinimumButtonPresses(FromSpec(lines[l]));
      result := result + presses;
    }
  }
}
