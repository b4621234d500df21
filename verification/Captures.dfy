/** The captured values of a request, kept in one stack per type. */
module Captures {
  import opened Routes

  /** routing_params */
  datatype RoutingParams = RoutingParams(ints: seq<int>, uints: seq<nat>, doubles: seq<real>, strings: seq<string>)

  const NO_PARAMS := RoutingParams([], [], [], [])

  function Push(ps: RoutingParams, v: Capture): RoutingParams {
    match v
    case IntValue(i) => ps.(ints := ps.ints + [i])
    case UintValue(u) => ps.(uints := ps.uints + [u])
    case DoubleValue(d) => ps.(doubles := ps.doubles + [d])
    case Text(s) => ps.(strings := ps.strings + [s])
  }

  function PushAll(ps: RoutingParams, caps: seq<Capture>): RoutingParams
    decreases |caps|
  {
    if caps == [] then ps else PushAll(Push(ps, caps[0]), caps[1..])
  }

  lemma PushAllCons(ps: RoutingParams, v: Capture, caps: seq<Capture>)
    ensures PushAll(ps, [v] + caps) == PushAll(Push(ps, v), caps)
  {
  }

  /** The shared stacks that the search pushes to and pops from. */
  class ParamStacks {
    var ints: seq<int>
    var uints: seq<nat>
    var doubles: seq<real>
    var strings: seq<string>

    function View(): RoutingParams
      reads this
    {
      RoutingParams(ints, uints, doubles, strings)
    }

    constructor ()
      ensures View() == NO_PARAMS
    {
      ints, uints, doubles, strings := [], [], [], [];
    }

    method PushOne(v: Capture)
      modifies this
      ensures View() == Push(old(View()), v)
    {
      match v
      case IntValue(i) => ints := ints + [i];
      case UintValue(u) => uints := uints + [u];
      case DoubleValue(d) => doubles := doubles + [d];
      case Text(s) => strings := strings + [s];
    }

    /** Takes off what PushOne put on. */
    method PopOne(v: Capture, ghost before: RoutingParams)
      requires View() == Push(before, v)
      modifies this
      ensures View() == before
    {
      match v
      case IntValue(_) => ints := ints[..|ints| - 1];
      case UintValue(_) => uints := uints[..|uints| - 1];
      case DoubleValue(_) => doubles := doubles[..|doubles| - 1];
      case Text(_) => strings := strings[..|strings| - 1];
    }
  }
}
