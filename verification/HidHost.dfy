/** `remapper_dual_b.cc` as it runs: the slot table updated in place by callbacks and scanning loops. */
module HidHost {
  import opened HidInputs

  class Host {
    const states: array<Slot>
    var nextPending: nat
    var armed: set<Iface>
    var uart: seq<Packet>
    ghost var books: map<Iface, Books>

    ghost function State(): Board
      reads this, states
    {
      Board(states[..], nextPending, armed, uart, books)
    }

    constructor ()
      ensures State() == INITIAL && fresh(states)
    {
      states := new Slot[SLOTS](_ => FREE);
      nextPending, armed, uart, books := 0, {}, [], map[];
      new;
      assert states[..] == INITIAL.slots;
    }

    method FindHidInputState(i: Iface) returns (k: nat)
      ensures k == Find(states[..], i)
    {
      k := 0;
      while k < states.Length
        invariant k <= states.Length && Find(states[..], i) == FindFrom(states[..], i, k)
      {
        if Owns(states[k], i) {
          return;
        }
        k := k + 1;
      }
    }

    method RegisterHidInput(i: Iface) returns (k: nat)
      modifies this`books, states
      ensures (State(), k) == Enter(old(State()), i)
    {
      k := FindHidInputState(i);
      if k < states.Length {
        return;
      }
      k := 0;
      while k < states.Length
        invariant k <= states.Length && FindFreeFrom(states[..], 0) == FindFreeFrom(states[..], k)
        invariant State() == old(State())
      {
        if !states[k].active {
          states[k] := Slot(true, i, false, []);
          books := books[i := Books([], |uart|)];
          return;
        }
        k := k + 1;
      }
    }

    method UnregisterHidInput(i: Iface)
      modifies this`armed, this`books, states
      ensures State() == Leave(old(State()), i)
    {
      var k := FindHidInputState(i);
      armed := armed - {i};
      if k < states.Length {
        states[k] := FREE;
        books := books - {i};
      }
    }

    method HasPendingHidReports() returns (r: bool)
      ensures r == HasPending(states[..])
    {
      for k := 0 to states.Length
        invariant forall j :: 0 <= j < k ==> !Waiting(states[..][j])
      {
        if Waiting(states[k]) {
          assert Waiting(states[..][k]);
          return true;
        }
      }
      r := false;
    }

    method ArmHidReport(i: Iface, agrees: bool)
      modifies this`armed
      ensures State() == Arm(old(State()), i, agrees)
    {
      if agrees {
        armed := armed + {i};
      }
    }

    method ArmReadyHidInputs(agreeing: set<Iface>)
      modifies this`armed
      ensures State() == ArmReady(old(State()), agreeing)
    {
      for k := 0 to states.Length
        invariant armed == old(armed) +
                  set s | s in states[..k] && s.active && !s.pending && s.iface in agreeing :: s.iface
      {
        assert states[..k + 1] == states[..k] + [states[k]];
        var s := states[k];
        if s.active && !s.pending {
          ArmHidReport(s.iface, s.iface in agreeing);
        }
      }
      assert states[..states.Length] == states[..];
    }

    /** The UART's answer comes in as `uartTakes`; an over-long report is never offered to it. */
    method SendHidReport(k: nat, i: Iface, data: Report, uartTakes: bool) returns (queued: bool)
      modifies this`uart
      ensures queued == (|data| <= EPIN_SIZE && uartTakes)
      ensures uart == old(uart) + if queued then [Packet(k, i, data)] else []
    {
      queued := |data| <= EPIN_SIZE && uartTakes;
      if queued {
        uart := uart + [Packet(k, i, data)];
      }
    }

    method FlushPendingHidReports(answers: seq<Answer>)
      requires states.Length == SLOTS && |answers| == SLOTS && nextPending < SLOTS
      modifies this, states
      ensures State() == FlushFrom(old(State()), old(nextPending), 0, answers)
    {
      hide Visit;
      var start := nextPending;
      for count := 0 to SLOTS
        invariant FlushFrom(State(), start, count, answers) == FlushFrom(old(State()), start, 0, answers)
      {
        var k := Visit(start, count);
        var s := states[k];
        if s.active && s.pending {
          var queued := SendHidReport(k, s.iface, s.data, answers[count].uartTakes);
          if !queued {
            nextPending := k;
            return;
          }
          states[k] := s.(pending := false);
          ArmHidReport(s.iface, answers[count].agrees);
          nextPending := (k + 1) % SLOTS;
        }
      }
    }

    method ReportReceivedCallback(i: Iface, data: Report, uartTakes: bool)
      requires Valid(State())
      modifies this, states
      ensures var (e, k) := Enter(old(State()), i);
              State() == if |data| > EPIN_SIZE then old(State())
                         else if k < |e.slots| && e.slots[k].iface in e.books then Deliver(e, k, data, uartTakes)
                         else e
    {
      if |data| > EPIN_SIZE {
        return;
      }
      EnterKeepsValid(State(), i);
      var k := RegisterHidInput(i);
      if k == states.Length {
        return;
      }
      books := Book(State(), i, data);
      var pending := HasPendingHidReports();
      var queued := false;
      if !pending {
        queued := SendHidReport(k, i, data, uartTakes);
      }
      if !queued {
        states[k] := states[k].(pending := true, data := data);
      }
    }

    /** `tuh_hid_report_received_cb`, entered when the transfer armed for i is over. */
    method TuhHidReportReceived(i: Iface, data: Report, answer: Answer)
      requires Valid(State()) && i in armed
      modifies this, states
      ensures State() == Complete(old(State()), i, data, answer) && Valid(State())
    {
      ghost var before := State();
      CompleteKeepsValid(before, i, data, answer);
      DisarmKeepsValid(before, i);
      armed := armed - {i};
      ReportReceivedCallback(i, data, answer.uartTakes);
      var k := FindHidInputState(i);
      if k < states.Length && !states[k].pending {
        ArmHidReport(i, answer.agrees);
      }
    }
  }
}
