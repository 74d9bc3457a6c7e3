/** Resolution of an inline-button press to the state to render
    (HandleCallbackQuery, internal/bot/handlers.go:113-138). */
module Callback {
  import opened Types

  /** The outcome of the scan: the state to render, or a failed premium lookup
      (the press is answered with an alert and nothing is rendered). */
  datatype Resolution = Resolved(next: string) | CheckError

  /** The inner loop over one state's buttons: the first premium button that
      targets `target` decides, and the scan of this state stops there. */
  function ScanButtons(buttons: seq<Button>, target: string, check: PremiumCheck): Resolution
    decreases |buttons|
  {
    if buttons == [] then Resolved(target)
    else if buttons[0].nextState == target && buttons[0].requiresPremium then
      match check
        case CheckFailed => CheckError
        case Premium(p) => Resolved(if p then target else buttons[0].fallbackState)
    else ScanButtons(buttons[1..], target, check)
  }

  /** The outer loop over the states in iteration order; the target a state's
      scan leaves is the one the next state's buttons are compared with. */
  function Resolve(scan: seq<State>, data: string, check: PremiumCheck): Resolution
    decreases |scan|
  {
    if scan == [] then Resolved(data)
    else
      match Resolve(scan[..|scan| - 1], data, check)
        case CheckError => CheckError
        case Resolved(t) => ScanButtons(scan[|scan| - 1].buttons, t, check)
  }

  /** Some state of the scan has a premium button leading to `target`. */
  predicate PremiumTargeted(scan: seq<State>, target: string) {
    exists i, j :: 0 <= i < |scan| && 0 <= j < |scan[i].buttons| &&
      scan[i].buttons[j].nextState == target && scan[i].buttons[j].requiresPremium
  }

  /** Some state of the scan has a premium button whose fallback is `target`. */
  predicate IsFallback(scan: seq<State>, target: string) {
    exists i, j :: 0 <= i < |scan| && 0 <= j < |scan[i].buttons| &&
      scan[i].buttons[j].fallbackState == target && scan[i].buttons[j].requiresPremium
  }

  predicate HasPremiumButtonTo(buttons: seq<Button>, target: string) {
    exists j :: 0 <= j < |buttons| && buttons[j].nextState == target && buttons[j].requiresPremium
  }

  /** One state's scan: it leaves the target alone when no premium button leads
      there or the user is premium, fails exactly when a premium button leads
      there and the lookup fails, and otherwise yields that button's fallback. */
  lemma {:induction false} ScanButtonsCases(buttons: seq<Button>, target: string, check: PremiumCheck)
    ensures !HasPremiumButtonTo(buttons, target) ==> ScanButtons(buttons, target, check) == Resolved(target)
    ensures check == Premium(true) ==> ScanButtons(buttons, target, check) == Resolved(target)
    ensures check.CheckFailed? ==>
      (ScanButtons(buttons, target, check) == CheckError <==> HasPremiumButtonTo(buttons, target))
    ensures check.CheckFailed? ==> ScanButtons(buttons, target, check) in {CheckError, Resolved(target)}
    ensures check == Premium(false) && HasPremiumButtonTo(buttons, target) ==>
      exists j :: 0 <= j < |buttons| && buttons[j].requiresPremium && buttons[j].nextState == target &&
        (forall k :: 0 <= k < j ==> !(buttons[k].requiresPremium && buttons[k].nextState == target)) &&
        ScanButtons(buttons, target, check) == Resolved(buttons[j].fallbackState)
    decreases |buttons|
  {
    if buttons != [] {
      var tail := buttons[1..];
      ScanButtonsCases(tail, target, check);
      if HasPremiumButtonTo(tail, target) {
        var j :| 0 <= j < |tail| && tail[j].nextState == target && tail[j].requiresPremium;
        assert buttons[j + 1] == tail[j];
      }
      if HasPremiumButtonTo(buttons, target) && !(buttons[0].nextState == target && buttons[0].requiresPremium) {
        var j :| 0 <= j < |buttons| && buttons[j].nextState == target && buttons[j].requiresPremium;
        assert j > 0 && tail[j - 1] == buttons[j];
        assert HasPremiumButtonTo(tail, target);
        if check == Premium(false) {
          var t :| 0 <= t < |tail| && tail[t].requiresPremium && tail[t].nextState == target &&
            (forall k :: 0 <= k < t ==> !(tail[k].requiresPremium && tail[k].nextState == target)) &&
            ScanButtons(tail, target, check) == Resolved(tail[t].fallbackState);
          assert buttons[t + 1] == tail[t];
          assert forall k :: 0 < k < t + 1 ==> buttons[k] == tail[k - 1];
        }
      }
    }
  }

  /** A premium user is always sent to the pressed button's payload. */
  lemma {:induction false} ResolvePremium(scan: seq<State>, data: string)
    ensures Resolve(scan, data, Premium(true)) == Resolved(data)
    decreases |scan|
  {
    if scan != [] {
      ResolvePremium(scan[..|scan| - 1], data);
      ScanButtonsCases(scan[|scan| - 1].buttons, data, Premium(true));
    }
  }

  /** A payload that no premium button targets is rendered as it is. */
  lemma {:induction false} ResolveUntargeted(scan: seq<State>, data: string, check: PremiumCheck)
    requires !PremiumTargeted(scan, data)
    ensures Resolve(scan, data, check) == Resolved(data)
    decreases |scan|
  {
    if scan != [] {
      var n := |scan| - 1;
      assert !PremiumTargeted(scan[..n], data) by {
        forall i | 0 <= i < n ensures scan[..n][i] == scan[i] { }
      }
      ResolveUntargeted(scan[..n], data, check);
      assert !HasPremiumButtonTo(scan[n].buttons, data);
      ScanButtonsCases(scan[n].buttons, data, check);
    }
  }

  /** With a failed lookup the target never changes; the press fails exactly
      when some premium button targets the payload. */
  lemma {:induction false} ResolveCheckFailed(scan: seq<State>, data: string)
    ensures Resolve(scan, data, CheckFailed) == CheckError <==> PremiumTargeted(scan, data)
    ensures Resolve(scan, data, CheckFailed) in {CheckError, Resolved(data)}
    decreases |scan|
  {
    if scan != [] {
      var n := |scan| - 1;
      ResolveCheckFailed(scan[..n], data);
      ScanButtonsCases(scan[n].buttons, data, CheckFailed);
      if PremiumTargeted(scan, data) {
        var i, j :| 0 <= i < |scan| && 0 <= j < |scan[i].buttons| &&
          scan[i].buttons[j].nextState == data && scan[i].buttons[j].requiresPremium;
        if i < n {
          assert scan[..n][i] == scan[i];
          assert PremiumTargeted(scan[..n], data);
        } else {
          assert HasPremiumButtonTo(scan[n].buttons, data);
        }
      }
      if PremiumTargeted(scan[..n], data) {
        var i, j :| 0 <= i < n && 0 <= j < |scan[..n][i].buttons| &&
          scan[..n][i].buttons[j].nextState == data && scan[..n][i].buttons[j].requiresPremium;
        assert scan[..n][i] == scan[i];
      }
      if HasPremiumButtonTo(scan[n].buttons, data) {
        var j :| 0 <= j < |scan[n].buttons| && scan[n].buttons[j].nextState == data && scan[n].buttons[j].requiresPremium;
        assert PremiumTargeted(scan, data);
      }
    }
  }

  /** For a non-premium user the press resolves either to the payload itself or
      to the fallback of some premium button of the scan. */
  lemma {:induction false} ResolveNotPremium(scan: seq<State>, data: string)
    ensures Resolve(scan, data, Premium(false)).Resolved?
    ensures var r := Resolve(scan, data, Premium(false)).next; r == data || IsFallback(scan, r)
    decreases |scan|
  {
    if scan != [] {
      var n := |scan| - 1;
      ResolveNotPremium(scan[..n], data);
      var t := Resolve(scan[..n], data, Premium(false)).next;
      ScanButtonsCases(scan[n].buttons, t, Premium(false));
      if t != data {
        var i, j :| 0 <= i < n && 0 <= j < |scan[..n][i].buttons| &&
          scan[..n][i].buttons[j].fallbackState == t && scan[..n][i].buttons[j].requiresPremium;
        assert scan[..n][i] == scan[i];
      }
      if HasPremiumButtonTo(scan[n].buttons, t) {
        var j :| 0 <= j < |scan[n].buttons| && scan[n].buttons[j].requiresPremium &&
          scan[n].buttons[j].nextState == t &&
          ScanButtons(scan[n].buttons, t, Premium(false)) == Resolved(scan[n].buttons[j].fallbackState);
        assert IsFallback(scan, scan[n].buttons[j].fallbackState);
      }
    }
  }

  /** Because only the inner loop is left early, fallbacks chain across states
      and the result depends on the order in which the states are visited. */
  lemma ResolveDependsOnOrder()
    ensures var a := State([], [Button("Open", "x", true, "y")], [], [], []);
      var b := State([], [Button("Open", "y", true, "z")], [], [], []);
      && Resolve([a, b], "x", Premium(false)) == Resolved("z")
      && Resolve([b, a], "x", Premium(false)) == Resolved("y")
  {
    var a := State([], [Button("Open", "x", true, "y")], [], [], []);
    var b := State([], [Button("Open", "y", true, "z")], [], [], []);
    assert [a, b][..1] == [a] && [a][..0] == [];
    assert [b, a][..1] == [b] && [b][..0] == [];
    assert Resolve([a], "x", Premium(false)) == ScanButtons(a.buttons, "x", Premium(false)) == Resolved("y");
    assert Resolve([a, b], "x", Premium(false)) == ScanButtons(b.buttons, "y", Premium(false)) == Resolved("z");
    assert Resolve([b], "x", Premium(false)) == ScanButtons(b.buttons, "x", Premium(false)) == Resolved("x");
    assert Resolve([b, a], "x", Premium(false)) == ScanButtons(a.buttons, "x", Premium(false)) == Resolved("y");
  }

  /** Once a lookup has failed, visiting more states does not change the outcome. */
  lemma {:induction false} ResolveErrorSticks(scan: seq<State>, k: nat, data: string, check: PremiumCheck)
    requires k <= |scan| && Resolve(scan[..k], data, check) == CheckError
    ensures Resolve(scan, data, check) == CheckError
    decreases |scan| - k
  {
    if k < |scan| {
      assert scan[..k + 1][..k] == scan[..k];
      ResolveErrorSticks(scan, k + 1, data, check);
    } else {
      assert scan[..k] == scan;
    }
  }

  /** The nested loops of HandleCallbackQuery. */
  method ResolveCallback(scan: seq<State>, data: string, check: PremiumCheck) returns (r: Resolution)
    ensures r == Resolve(scan, data, check)
  {
    var next := data;
    var i := 0;
    while i < |scan|
      invariant 0 <= i <= |scan|
      invariant Resolve(scan[..i], data, check) == Resolved(next)
    {
      assert scan[..i + 1][..i] == scan[..i];
      var buttons := scan[i].buttons;
      ghost var t := next;
      var j := 0;
      while j < |buttons|
        invariant 0 <= j <= |buttons|
        invariant next == t
        invariant ScanButtons(buttons, t, check) == ScanButtons(buttons[j..], t, check)
      {
        var btn := buttons[j];
        if btn.nextState == next && btn.requiresPremium {
          if check.CheckFailed? {
            ResolveErrorSticks(scan, i + 1, data, check);
            return CheckError;
          }
          if !check.isPremium {
            next := btn.fallbackState;
          }
          break;
        }
        assert buttons[j..][1..] == buttons[j + 1..];
        j := j + 1;
      }
      i := i + 1;
    }
    assert scan[..i] == scan;
    r := Resolved(next);
  }
}
