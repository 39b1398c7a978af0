/**
 * The software XON/XOFF hysteresis of `check_uart_flow_control`
 * (uartHandler.c), as a step function over the occupancy of the receive
 * buffer, and what a run of such steps sends to the peer.
 *
 * The thresholds UART_XON_THRESHOLD < UART_XOFF_THRESHOLD are parameters.
 * UART_XON and UART_XOFF are the ASCII DC1 and DC3 control characters.
 */
module FlowControl {
  import opened CTypes
  import opened SerialConfig

  const XON: bv8 := 0x11
  const XOFF: bv8 := 0x13

  /** xonoff_status */
  datatype FlowState = XOn | XOff

  /** The new status and the control bytes sent to the peer (at most one per step). */
  datatype FlowOutcome = FlowOutcome(state: FlowState, sent: seq<bv8>)

  function Flip(s: FlowState): FlowState
  {
    if s == XOn then XOff else XOn
  }

  /**
   * One call of check_uart_flow_control with flow-control code `mode` at
   * occupancy `used`: nothing unless the mode is XON/XOFF; from XON above
   * the XOFF threshold, send XOFF and switch; from XOFF below the XON
   * threshold, send XON and switch.
   */
  function FlowStep(mode: uint8, st: FlowState, used: nat, xonThreshold: nat, xoffThreshold: nat): (o: FlowOutcome)
    ensures mode != FLOW_XON_XOFF ==> o == FlowOutcome(st, [])
    ensures o.sent == [XOFF] <==> mode == FLOW_XON_XOFF && st == XOn && used > xoffThreshold
    ensures o.sent == [XON] <==> mode == FLOW_XON_XOFF && st == XOff && used < xonThreshold
    ensures o.sent == [] || o.sent == [XON] || o.sent == [XOFF]
    ensures o.state == (if o.sent == [] then st else Flip(st))
  {
    if mode == FLOW_XON_XOFF then
      if st == XOn && used > xoffThreshold then FlowOutcome(XOff, [XOFF])
      else if st == XOff && used < xonThreshold then FlowOutcome(XOn, [XON])
      else FlowOutcome(st, [])
    else FlowOutcome(st, [])
  }

  /** Successive calls at the occupancies `useds`, starting in status `st`. */
  function FlowRun(mode: uint8, st: FlowState, useds: seq<nat>, xonThreshold: nat, xoffThreshold: nat): (o: FlowOutcome)
    decreases |useds|
  {
    if useds == [] then FlowOutcome(st, [])
    else
      var first := FlowStep(mode, st, useds[0], xonThreshold, xoffThreshold);
      var rest := FlowRun(mode, first.state, useds[1..], xonThreshold, xoffThreshold);
      FlowOutcome(rest.state, first.sent + rest.sent)
  }

  /** Once a step at occupancy u has sent nothing, further steps at u send nothing either. */
  lemma {:induction false} SettledRunIsSilent(mode: uint8, st: FlowState, useds: seq<nat>, u: nat, xonThreshold: nat, xoffThreshold: nat)
    requires forall i :: 0 <= i < |useds| ==> useds[i] == u
    requires FlowStep(mode, st, u, xonThreshold, xoffThreshold).sent == []
    ensures FlowRun(mode, st, useds, xonThreshold, xoffThreshold) == FlowOutcome(st, [])
    decreases |useds|
  {
    if useds != [] {
      SettledRunIsSilent(mode, st, useds[1..], u, xonThreshold, xoffThreshold);
    }
  }

  /**
   * No re-emission within a band: any number of calls at an unchanged
   * occupancy send at most one control byte in total.
   */
  lemma {:induction false} SteadyOccupancySendsAtMostOnce(mode: uint8, st: FlowState, useds: seq<nat>, u: nat, xonThreshold: nat, xoffThreshold: nat)
    requires xonThreshold < xoffThreshold
    requires forall i :: 0 <= i < |useds| ==> useds[i] == u
    ensures |FlowRun(mode, st, useds, xonThreshold, xoffThreshold).sent| <= 1
  {
    if useds != [] {
      var first := FlowStep(mode, st, u, xonThreshold, xoffThreshold);
      assert FlowStep(mode, first.state, u, xonThreshold, xoffThreshold).sent == [];
      SettledRunIsSilent(mode, first.state, useds[1..], u, xonThreshold, xoffThreshold);
    }
  }

  /** The control byte that leaves status s: XOFF from XON, XON from XOFF. */
  function Leaving(s: FlowState): bv8
  {
    if s == XOn then XOFF else XON
  }

  /**
   * Whatever the occupancies, the bytes sent alternate: the first is the
   * one that leaves the initial status, each differs from the one before,
   * and the last is the one that entered the final status (which is the
   * initial status when nothing is sent). So an XOFF is sent only on a
   * rise above the XOFF threshold after an XON (or from the initial XON
   * status), and an XON only on a fall below the XON threshold after an
   * XOFF; a second rise with no XON in between sends nothing.
   */
  lemma {:induction false} RunAlternates(mode: uint8, st: FlowState, useds: seq<nat>, xonThreshold: nat, xoffThreshold: nat)
    ensures var o := FlowRun(mode, st, useds, xonThreshold, xoffThreshold);
            && (forall i :: 0 <= i < |o.sent| ==> o.sent[i] == XON || o.sent[i] == XOFF)
            && (o.sent == [] ==> o.state == st)
            && (o.sent != [] ==> o.sent[0] == Leaving(st) && o.sent[|o.sent| - 1] == Leaving(Flip(o.state)))
            && (forall i :: 0 <= i < |o.sent| - 1 ==> o.sent[i + 1] != o.sent[i])
    decreases |useds|
  {
    if useds != [] {
      var first := FlowStep(mode, st, useds[0], xonThreshold, xoffThreshold);
      var rest := FlowRun(mode, first.state, useds[1..], xonThreshold, xoffThreshold);
      RunAlternates(mode, first.state, useds[1..], xonThreshold, xoffThreshold);
      var o := FlowRun(mode, st, useds, xonThreshold, xoffThreshold);
      assert o.sent == first.sent + rest.sent && o.state == rest.state;
      if first.sent != [] {
        assert first.sent == [Leaving(st)] && first.state == Flip(st);
        forall i | 0 <= i < |o.sent| - 1
          ensures o.sent[i + 1] != o.sent[i]
        {
          assert o.sent[i + 1] == rest.sent[i];
          if i > 0 {
            assert o.sent[i] == rest.sent[i - 1];
          }
        }
      } else {
        assert o.sent == rest.sent;
      }
    }
  }

  /**
   * With a 64-byte buffer and thresholds 16 and 48: filling to 49 sends one
   * XOFF, staying at or above 48 sends nothing more, and draining to 15
   * sends one XON.
   */
  lemma HysteresisExample()
    ensures FlowRun(FLOW_XON_XOFF, XOn, [40, 49, 50, 64, 48, 30, 16, 15, 10, 15], 16, 48).sent == [XOFF, XON]
  {
  }

  /**
   * With the same thresholds, rising above 48, falling to 30 (not below 16)
   * and rising above 48 again sends a single XOFF.
   */
  lemma RepeatedRiseExample()
    ensures FlowRun(FLOW_XON_XOFF, XOn, [49, 30, 49], 16, 48).sent == [XOFF]
  {
  }
}
