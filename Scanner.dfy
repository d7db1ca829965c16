/**
  The directive scanner of ShipLoop: it walks a ship name, ignores everything
  up to a '#', and from then on hands every character to the dispatcher as
  an operator, paired with the character after it as its value. When the
  dispatcher uses the value, the scan steps over it.
 */
module Scanner {
  import opened Tables
  import opened Dispatcher

  /** One call of the dispatcher: the scan position of the operator, the operator and its value. */
  datatype Dispatch = Dispatch(pos: nat, op: char, val: char)

  /** The value paired with the operator at `i`: the next character, or a blank at the end of the name. */
  function ValueAt(name: string, i: nat): char
    requires i < |name|
  {
    if i < |name| - 1 then name[i + 1] else ' '
  }

  /**
    Whether the dispatcher reports the value of `d` as used. By
    ProcessOperator's contract this is exactly: a recognised operator whose
    handling did not throw. `faults` holds the scan positions at which it throws.
   */
  predicate Uses(d: Dispatch, faults: set<nat>)
  {
    d.op in Operators && d.pos !in faults
  }

  /** Where the scan goes on after dispatching `d`. */
  function Next(d: Dispatch, faults: set<nat>): nat
  {
    d.pos + if Uses(d, faults) then 2 else 1
  }

  /**
    The dispatches the scan makes from position `i` on, where `begun` says
    whether a '#' has been met before `i`.
   */
  function DirectivesFrom(name: string, i: nat, begun: bool, faults: set<nat>): (ds: seq<Dispatch>)
    ensures |ds| <= if i < |name| then |name| - i else 0
    decreases |name| - i
  {
    if i >= |name| then []
    else if name[i] == '#' then DirectivesFrom(name, i + 1, true, faults)
    else if !begun then DirectivesFrom(name, i + 1, false, faults)
    else
      var d := Dispatch(i, name[i], ValueAt(name, i));
      [d] + DirectivesFrom(name, Next(d, faults), true, faults)
  }

  /** The dispatches the scan of a whole ship name makes, in order: at most one per character. */
  function Directives(name: string, faults: set<nat>): (ds: seq<Dispatch>)
    ensures |ds| <= |name|
  {
    DirectivesFrom(name, 0, false, faults)
  }

  /** The apply calls made by a sequence of dispatches, in order. */
  function Applied(calls: seq<Dispatch>, assets: set<string>, faults: set<nat>): seq<Effect>
  {
    if calls == [] then []
    else
      var d := calls[|calls| - 1];
      Applied(calls[..|calls| - 1], assets, faults)
        + AppliedOf(ProcessOperator(d.op, d.val, assets, d.pos in faults))
  }

  /** Each dispatch comes no earlier than where the scan goes on after every dispatch before it. */
  predicate InScanOrder(ds: seq<Dispatch>, faults: set<nat>)
  {
    forall a, b :: 0 <= a < b < |ds| ==> Next(ds[a], faults) <= ds[b].pos
  }

  /** Some '#' stands at a position in [lo, hi). */
  predicate SentinelBetween(name: string, lo: nat, hi: nat)
  {
    exists k :: lo <= k < hi && k < |name| && name[k] == '#'
  }

  /** The scan dispatches an operator at position `j`. */
  predicate Dispatched(name: string, faults: set<nat>, j: nat)
  {
    exists d :: d in Directives(name, faults) && d.pos == j
  }

  /** The character at `j` is used as the value of the operator dispatched just before it. */
  predicate Swallowed(name: string, faults: set<nat>, j: nat)
  {
    exists d :: d in Directives(name, faults) && Uses(d, faults) && d.pos + 1 == j
  }

  /** Appending one dispatch appends its apply calls. */
  lemma AppliedSnoc(calls: seq<Dispatch>, d: Dispatch, assets: set<string>, faults: set<nat>)
    ensures Applied(calls + [d], assets, faults)
         == Applied(calls, assets, faults) + AppliedOf(ProcessOperator(d.op, d.val, assets, d.pos in faults))
  {
  }

  /** One dispatching step of the scan, as the loop of Scan takes it. */
  lemma DispatchStep(name: string, i: nat, faults: set<nat>, calls: seq<Dispatch>)
    requires i < |name| && name[i] != '#'
    ensures var d := Dispatch(i, name[i], ValueAt(name, i));
      calls + DirectivesFrom(name, i, true, faults) == (calls + [d]) + DirectivesFrom(name, Next(d, faults), true, faults)
  {
  }

  /**
    ShipLoop's scan of one name (the for loop over `i` with the
    `encounteredBeginner` flag). It returns the dispatches it makes and the
    apply calls they cause, in order.
   */
  method Scan(name: string, assets: set<string>, faults: set<nat>)
    returns (calls: seq<Dispatch>, effects: seq<Effect>)
    ensures calls == Directives(name, faults)
    ensures effects == Applied(calls, assets, faults)
  {
    var encounteredBeginner := false;
    var i: nat := 0;
    calls, effects := [], [];
    while i < |name|
      invariant i <= |name| + 1
      invariant calls + DirectivesFrom(name, i, encounteredBeginner, faults) == Directives(name, faults)
      invariant effects == Applied(calls, assets, faults)
      decreases |name| + 1 - i
    {
      if name[i] == '#' {
        encounteredBeginner := true;
      } else if encounteredBeginner {
        var op := name[i];
        var val := if i < |name| - 1 then name[i + 1] else ' ';
        var outcome := ProcessOperator(op, val, assets, i in faults);
        var d := Dispatch(i, op, val);
        DispatchStep(name, i, faults, calls);
        AppliedSnoc(calls, d, assets, faults);
        calls := calls + [d];
        effects := effects + AppliedOf(outcome);
        if outcome.used {
          i := i + 1;
        }
      }
      i := i + 1;
    }
  }

  /**
    Every dispatch made from `i` on is at a position in [i, |name|), carries
    the character there as operator and the character after it (or a blank)
    as value, never has '#' as operator, and comes after a '#'.
   */
  lemma {:induction false} DirectivesFromSound(name: string, i: nat, begun: bool, faults: set<nat>)
    ensures forall d :: d in DirectivesFrom(name, i, begun, faults) ==>
      i <= d.pos < |name| && d.op == name[d.pos] && d.op != '#' && d.val == ValueAt(name, d.pos) &&
      (begun || SentinelBetween(name, i, d.pos))
    decreases |name| - i
  {
    if i < |name| {
      var rest := DirectivesFrom(name, i + 1, true, faults);
      if name[i] == '#' {
        DirectivesFromSound(name, i + 1, true, faults);
        forall d | d in rest ensures SentinelBetween(name, i, d.pos) {
          assert i < d.pos && name[i] == '#';
        }
      } else if !begun {
        DirectivesFromSound(name, i + 1, false, faults);
      } else {
        var d := Dispatch(i, name[i], ValueAt(name, i));
        DirectivesFromSound(name, Next(d, faults), true, faults);
      }
    }
  }

  /**
    The scan dispatches in strictly increasing position order, and after a
    dispatch `d` the next one is no earlier than Next(d): a used value is
    never itself dispatched.
   */
  lemma {:induction false} DirectivesFromOrdered(name: string, i: nat, begun: bool, faults: set<nat>)
    ensures InScanOrder(DirectivesFrom(name, i, begun, faults), faults)
    decreases |name| - i
  {
    var ds := DirectivesFrom(name, i, begun, faults);
    if i < |name| {
      if name[i] == '#' {
        assert ds == DirectivesFrom(name, i + 1, true, faults);
        DirectivesFromOrdered(name, i + 1, true, faults);
      } else if !begun {
        assert ds == DirectivesFrom(name, i + 1, false, faults);
        DirectivesFromOrdered(name, i + 1, false, faults);
      } else {
        var d := Dispatch(i, name[i], ValueAt(name, i));
        var rest := DirectivesFrom(name, Next(d, faults), true, faults);
        assert ds == [d] + rest;
        DirectivesFromOrdered(name, Next(d, faults), true, faults);
        DirectivesFromSound(name, Next(d, faults), true, faults);
        forall a, b | 0 <= a < b < |ds| ensures Next(ds[a], faults) <= ds[b].pos {
          assert ds[b] == rest[b - 1];
          assert rest[b - 1] in rest;
          if a > 0 {
            assert ds[a] == rest[a - 1];
            assert Next(rest[a - 1], faults) <= rest[b - 1].pos;
          }
        }
      }
    }
  }

  /**
    Every character from `i` on that comes after a '#' and is not a '#'
    itself is either dispatched or used as the value of the dispatch just
    before it.
   */
  lemma {:induction false} DirectivesFromComplete(name: string, i: nat, begun: bool, faults: set<nat>, j: nat)
    requires i <= j < |name| && name[j] != '#'
    requires begun || SentinelBetween(name, i, j)
    ensures var ds := DirectivesFrom(name, i, begun, faults);
      (exists d :: d in ds && d.pos == j) ||
      (exists d :: d in ds && Uses(d, faults) && d.pos + 1 == j)
    decreases |name| - i
  {
    if name[i] == '#' {
      DirectivesFromComplete(name, i + 1, true, faults, j);
    } else if !begun {
      var k :| i <= k < j && k < |name| && name[k] == '#';
      assert i + 1 <= k;
      DirectivesFromComplete(name, i + 1, false, faults, j);
    } else {
      var d := Dispatch(i, name[i], ValueAt(name, i));
      var rest := DirectivesFrom(name, Next(d, faults), true, faults);
      assert DirectivesFrom(name, i, begun, faults) == [d] + rest;
      if j == i {
        assert d in [d] + rest;
      } else if j == i + 1 && Uses(d, faults) {
        assert d in [d] + rest;
      } else {
        DirectivesFromComplete(name, Next(d, faults), true, faults, j);
        var e :| e in rest && (e.pos == j || (Uses(e, faults) && e.pos + 1 == j));
        assert e in [d] + rest;
      }
    }
  }

  /** A name without '#' makes no dispatch at all. */
  lemma NoSentinelNoDispatch(name: string, faults: set<nat>)
    requires '#' !in name
    ensures Directives(name, faults) == []
  {
    NoSentinelFrom(name, 0, faults);
  }

  /** Before any '#' has been met, a suffix without '#' makes no dispatch. */
  lemma {:induction false} NoSentinelFrom(name: string, i: nat, faults: set<nat>)
    requires forall k :: i <= k < |name| ==> name[k] != '#'
    ensures DirectivesFrom(name, i, false, faults) == []
    decreases |name| - i
  {
    if i < |name| {
      NoSentinelFrom(name, i + 1, faults);
    }
  }

  /** No character before the first '#' reaches the dispatcher. */
  lemma NoDispatchBeforeSentinel(name: string, faults: set<nat>, d: Dispatch)
    requires d in Directives(name, faults)
    ensures d.pos < |name| && exists k :: 0 <= k < d.pos && name[k] == '#'
  {
    DirectivesFromSound(name, 0, false, faults);
  }

  /**
    Each dispatch pairs the operator character at its position with the
    next character, or with a blank when the operator is the name's last
    character; the operator is never '#'.
   */
  lemma DispatchPairing(name: string, faults: set<nat>, d: Dispatch)
    requires d in Directives(name, faults)
    ensures d.pos < |name| && d.op == name[d.pos] && d.op != '#'
    ensures d.val == if d.pos < |name| - 1 then name[d.pos + 1] else ' '
  {
    DirectivesFromSound(name, 0, false, faults);
  }

  /**
    Dispatches come in strictly increasing position order; a dispatch whose
    value is used is followed by one at least two positions on, any other by
    one at least one position on.
   */
  lemma DispatchOrder(name: string, faults: set<nat>, a: nat, b: nat)
    requires a < b < |Directives(name, faults)|
    ensures var ds := Directives(name, faults);
      ds[a].pos < ds[b].pos &&
      ds[b].pos >= ds[a].pos + if Uses(ds[a], faults) then 2 else 1
  {
    var ds := Directives(name, faults);
    DirectivesFromOrdered(name, 0, false, faults);
    assert Next(ds[a], faults) <= ds[b].pos;
  }

  /**
    Which positions of a name reach the dispatcher as operators: exactly those
    that are not '#', come after some '#', and are not the used value of the
    operator before them.
   */
  lemma DispatchedExactly(name: string, faults: set<nat>, j: nat)
    requires j < |name|
    ensures Dispatched(name, faults, j) <==>
      name[j] != '#' && SentinelBetween(name, 0, j) && !Swallowed(name, faults, j)
  {
    var ds := Directives(name, faults);
    assert ds == DirectivesFrom(name, 0, false, faults);
    DirectivesFromSound(name, 0, false, faults);
    DirectivesFromOrdered(name, 0, false, faults);
    if Dispatched(name, faults, j) {
      var d :| d in ds && d.pos == j;
      if Swallowed(name, faults, j) {
        assert false;
      }
    } else if name[j] != '#' && SentinelBetween(name, 0, j) {
      DirectivesFromComplete(name, 0, false, faults, j);
    }
  }

  /**
    After a dispatch at `p` the scan skips exactly one character when the
    value is used and none otherwise: position p + 1 is the next operator
    exactly when the value was not used (and is not '#'), and after a used
    value position p + 2 is the next operator unless it is '#'.
   */
  lemma SkipAfterDispatch(name: string, faults: set<nat>, d: Dispatch)
    requires d in Directives(name, faults)
    ensures d.pos + 1 < |name| ==>
      (Dispatched(name, faults, d.pos + 1) <==> !Uses(d, faults) && name[d.pos + 1] != '#')
    ensures Uses(d, faults) && d.pos + 2 < |name| ==>
      (Dispatched(name, faults, d.pos + 2) <==> name[d.pos + 2] != '#')
  {
    var ds := Directives(name, faults);
    DirectivesFromSound(name, 0, false, faults);
    var k :| 0 <= k < d.pos && k < |name| && name[k] == '#';
    if d.pos + 1 < |name| {
      DispatchedExactly(name, faults, d.pos + 1);
      assert SentinelBetween(name, 0, d.pos + 1);
      if !Uses(d, faults) && Swallowed(name, faults, d.pos + 1) {
        var e :| e in ds && Uses(e, faults) && e.pos + 1 == d.pos + 1;
        assert false;
      }
    }
    if Uses(d, faults) && d.pos + 2 < |name| {
      DispatchedExactly(name, faults, d.pos + 2);
      DispatchedExactly(name, faults, d.pos + 1);
      assert SentinelBetween(name, 0, d.pos + 2);
      if Swallowed(name, faults, d.pos + 2) {
        assert false;
      }
    }
  }
}
