/** The sockets the preloaded client library keeps track of (client/src/preload.c). */
module Sockets {
  import opened Options
  import opened Sequences

  /**
   What is tracked, whether the network is switched off, and the kernel's side: the open
   internet sockets and those among them that have been shut down.
   */
  datatype Net = Net(tracked: seq<int>, down: bool, open: set<int>, shut: set<int>)

  /** The intercepted calls with the result of the real one, and the command of the simulator. */
  datatype Event =
    | Socket(ret: int, internet: bool)
    | Accept(listener: int, ret: int)
    | Close(fd: int)
    | SwitchNet(severity: nat)

  function Without(s: seq<int>, x: int): seq<int> {
    if s == [] then []
    else if s[0] == x then s[1..]
    else [s[0]] + Without(s[1..], x)
  }

  function After(n: Net, e: Event): Net {
    match e
    case Socket(ret, internet) =>
      if internet && ret >= 0 then n.(tracked := n.tracked + [ret], open := n.open + {ret}) else n
    case Accept(listener, ret) =>
      if ret < 0 then n
      else n.(tracked := if listener in n.tracked then n.tracked + [ret] else n.tracked,
              open := if listener in n.open then n.open + {ret} else n.open)
    case Close(fd) => n.(tracked := Without(n.tracked, fd), open := n.open - {fd}, shut := n.shut - {fd})
    case SwitchNet(severity) =>
      if !n.down && severity != 0 then n.(tracked := [], shut := n.shut + Elements(n.tracked), down := true)
      else if n.down && severity == 0 then n.(down := false)
      else n
  }

  function AfterAll(n: Net, events: seq<Event>): Net
    decreases |events|
  {
    if events == [] then n else After(AfterAll(n, events[..|events| - 1]), events[|events| - 1])
  }

  /** The kernel returns only descriptors not in use, and nothing from a listener that is shut down. */
  predicate KernelAllows(n: Net, e: Event) {
    match e
    case Socket(ret, internet) => ret !in n.open
    case Accept(listener, ret) => ret !in n.open && (ret >= 0 ==> listener !in n.shut)
    case _ => true
  }

  predicate KernelAllowsAll(n: Net, events: seq<Event>)
    decreases |events|
  {
    events == []
    || (KernelAllowsAll(n, events[..|events| - 1])
        && KernelAllows(AfterAll(n, events[..|events| - 1]), events[|events| - 1]))
  }

  function Elements(s: seq<int>): set<int> {
    set x | x in s
  }

  /** Every open internet socket is either tracked, once, or already shut down. */
  predicate Partitioned(n: Net) {
    && NoRepeats(n.tracked)
    && Elements(n.tracked) + n.shut == n.open
    && Elements(n.tracked) !! n.shut
  }

  lemma {:induction false} WithoutIsRemoval(s: seq<int>, x: int)
    requires NoRepeats(s)
    ensures NoRepeats(Without(s, x)) && Elements(Without(s, x)) == Elements(s) - {x}
  {
    if s != [] {
      WithoutIsRemoval(s[1..], x);
      var rest := Without(s[1..], x);
      assert Elements(s) == {s[0]} + Elements(s[1..]) && s[0] !in Elements(s[1..]);
      if s[0] != x {
        assert s[0] !in Elements(rest);
        assert Elements([s[0]] + rest) == {s[0]} + Elements(rest);
      } else {
        assert Elements(s[1..]) == Elements(s) - {x};
      }
    }
  }

  lemma ElementsAppend(s: seq<int>, x: int)
    requires NoRepeats(s) && x !in s
    ensures NoRepeats(s + [x]) && Elements(s + [x]) == Elements(s) + {x}
  {
  }

  lemma PartitionKept(n: Net, e: Event)
    requires Partitioned(n) && KernelAllows(n, e)
    ensures Partitioned(After(n, e))
  {
    match e
    case Socket(ret, internet) => if internet && ret >= 0 { TrackOne(n, ret); }
    case Accept(listener, ret) => if ret >= 0 && listener in n.open { TrackOne(n, ret); }
    case Close(fd) => WithoutIsRemoval(n.tracked, fd);
    case SwitchNet(severity) => assert Elements([]) == {};
  }

  lemma TrackOne(n: Net, fd: int)
    requires Partitioned(n) && fd !in n.open
    ensures Partitioned(n.(tracked := n.tracked + [fd], open := n.open + {fd}))
    ensures forall x :: x in n.tracked ==> x in n.open
  {
    forall x | x in n.tracked ensures x in n.open {
      assert x in Elements(n.tracked);
    }
    ElementsAppend(n.tracked, fd);
  }

  const NOTHING_OPEN := Net([], false, {}, {})

  /**
   Over every sequence of socket calls and network commands: no descriptor is tracked twice,
   and every open internet socket is tracked or shut down, never both and never neither.
   */
  lemma {:induction false} AlwaysPartitioned(events: seq<Event>)
    requires KernelAllowsAll(NOTHING_OPEN, events)
    ensures Partitioned(AfterAll(NOTHING_OPEN, events))
    decreases |events|
  {
    if events != [] {
      AlwaysPartitioned(events[..|events| - 1]);
      PartitionKept(AfterAll(NOTHING_OPEN, events[..|events| - 1]), events[|events| - 1]);
    }
  }

  // ---------- The state, told by the events ----------

  /** The severity of the last network command. */
  function LastCommand(events: seq<Event>): Option<nat>
    decreases |events|
  {
    if events == [] then None
    else if events[|events| - 1].SwitchNet? then Some(events[|events| - 1].severity)
    else LastCommand(events[..|events| - 1])
  }

  /** The last command was a failure. */
  predicate Outage(events: seq<Event>) {
    LastCommand(events).GetOr(0) != 0
  }

  /** An internet socket has been opened under this number, or accepted from an open one, and not closed. */
  predicate IsOpen(events: seq<Event>, fd: int)
    decreases |events|
  {
    events != [] &&
    var before := events[..|events| - 1];
    match events[|events| - 1]
    case Socket(ret, internet) => (internet && ret == fd && fd >= 0) || IsOpen(before, fd)
    case Accept(listener, ret) => (ret == fd && fd >= 0 && IsOpen(before, listener)) || IsOpen(before, fd)
    case Close(closed) => closed != fd && IsOpen(before, fd)
    case SwitchNet(_) => IsOpen(before, fd)
  }

  /** It was open when the network failed, and has not been closed since. */
  predicate WasShut(events: seq<Event>, fd: int)
    decreases |events|
  {
    events != [] &&
    var before := events[..|events| - 1];
    match events[|events| - 1]
    case Close(closed) => closed != fd && WasShut(before, fd)
    case SwitchNet(severity) => (severity != 0 && !Outage(before) && IsOpen(before, fd)) || WasShut(before, fd)
    case _ => WasShut(before, fd)
  }

  /** The network is off exactly when the last command was a failure. */
  lemma {:induction false} DownExactly(events: seq<Event>)
    ensures AfterAll(NOTHING_OPEN, events).down <==> Outage(events)
    decreases |events|
  {
    if events != [] {
      DownExactly(events[..|events| - 1]);
    }
  }

  /**
   Whatever the events: the sockets the library tracks are exactly the open internet sockets that
   no failure has hit since they were opened; those one has hit are shut down.
   */
  lemma {:induction false} TrackedExactly(events: seq<Event>, fd: int)
    requires KernelAllowsAll(NOTHING_OPEN, events)
    ensures var n := AfterAll(NOTHING_OPEN, events);
            && (fd in n.open <==> IsOpen(events, fd))
            && (fd in n.shut <==> WasShut(events, fd))
            && (fd in n.tracked <==> IsOpen(events, fd) && !WasShut(events, fd))
    decreases |events|
  {
    AlwaysPartitioned(events);
    InParts(AfterAll(NOTHING_OPEN, events), fd);
    if events != [] {
      var before, last := events[..|events| - 1], events[|events| - 1];
      AlwaysPartitioned(before);
      InParts(AfterAll(NOTHING_OPEN, before), fd);
      DownExactly(before);
      TrackedExactly(before, fd);
      if last.Accept? {
        TrackedExactly(before, last.listener);
      }
      hide Partitioned, Without, NoRepeats;
    }
  }

  lemma InParts(n: Net, fd: int)
    requires Partitioned(n)
    ensures fd in n.open <==> fd in n.tracked || fd in n.shut
    ensures !(fd in n.tracked && fd in n.shut)
  {
    assert fd in n.tracked <==> fd in Elements(n.tracked);
  }

  /**
   A failing network shuts down all open sockets -- except when the last command was a failure
   already, and then it shuts down none of the new ones.
   */
  lemma OutageShutsAll(events: seq<Event>, severity: nat)
    requires KernelAllowsAll(NOTHING_OPEN, events) && severity != 0
    ensures var n := AfterAll(NOTHING_OPEN, events);
            var m := After(n, SwitchNet(severity));
            && m.open == n.open
            && (m.shut == m.open <==> LastCommand(events).GetOr(0) == 0 || n.tracked == [])
            && (LastCommand(events).GetOr(0) != 0 ==> m == n)
  {
    AlwaysPartitioned(events);
    DownExactly(events);
    var n := AfterAll(NOTHING_OPEN, events);
    hide AfterAll, KernelAllowsAll, LastCommand;
    if n.tracked != [] {
      assert n.tracked[0] in Elements(n.tracked);
    } else {
      assert Elements(n.tracked) == {};
    }
  }

  /** A socket opened while the network is down, and a second failure that leaves it working. */
  lemma OutageMissesNew(severity: nat)
    requires severity != 0
    ensures var events := [SwitchNet(severity), Socket(3, true)];
            var n := AfterAll(NOTHING_OPEN, events);
            && KernelAllowsAll(NOTHING_OPEN, events) && n.down && n.tracked == [3]
            && After(n, SwitchNet(severity)).shut == {} && n.open == {3}
  {
    var events := [SwitchNet(severity), Socket(3, true)];
    assert events[..1] == [SwitchNet(severity)] && [SwitchNet(severity)][..0] == [];
    var none: seq<int> := [];
    assert Elements(none) == {};
    assert AfterAll(NOTHING_OPEN, []) == NOTHING_OPEN && KernelAllowsAll(NOTHING_OPEN, []);
    assert AfterAll(NOTHING_OPEN, events[..1]) == Net([], true, {}, {});
  }

  /** A closed descriptor is not tracked. */
  lemma ClosedIsForgotten(events: seq<Event>, fd: int)
    requires KernelAllowsAll(NOTHING_OPEN, events)
    ensures fd !in After(AfterAll(NOTHING_OPEN, events), Close(fd)).tracked
  {
    AlwaysPartitioned(events);
    var n := AfterAll(NOTHING_OPEN, events);
    hide AfterAll, KernelAllowsAll;
    WithoutIsRemoval(n.tracked, fd);
    assert fd !in Elements(Without(n.tracked, fd));
  }

  /** The library's state, with a growing array of descriptors. */
  class Preload {
    var netState: nat
    var fds: array<int>
    var numFds: nat
    /** The kernel's side of the sockets. */
    var open: set<int>
    var shut: set<int>

    constructor ()
      ensures Valid() && fresh(fds) && State() == NOTHING_OPEN
    {
      netState, numFds := 0, 0;
      fds := new int[0];
      open, shut := {}, {};
    }

    ghost predicate Valid()
      reads this
    {
      numFds <= fds.Length
    }

    ghost function State(): Net
      requires Valid()
      reads this, fds
    {
      Net(fds[..numFds], netState != 0, open, shut)
    }

    method AddSockToList(sock: int) returns (r: int)
      requires Valid()
      modifies this`fds, this`numFds
      ensures Valid() && (fds == old(fds) || fresh(fds))
      ensures fds[..numFds] == old(fds[..numFds]) + if sock >= 0 then [sock] else []
      ensures r == if sock < 0 then 1 else 0
    {
      if sock < 0 {
        return 1;
      }
      var bigger := new int[numFds + 1];
      forall k | 0 <= k < numFds {
        bigger[k] := fds[k];
      }
      bigger[numFds] := sock;
      fds, numFds := bigger, numFds + 1;
      return 0;
    }

    method IsInList(sock: int) returns (found: bool)
      requires Valid()
      ensures found <==> sock in State().tracked
    {
      var i := 0;
      while i < numFds
        invariant i <= numFds && sock !in fds[..i]
      {
        if fds[i] == sock {
          assert sock in fds[..numFds];
          break;
        }
        i := i + 1;
      }
      found := i < numFds;
    }

    /** Closes the gap by moving the descriptors behind it, in place. */
    method RemoveSockFromList(sock: int) returns (r: int)
      requires Valid()
      modifies this`numFds, fds
      ensures Valid() && fds[..numFds] == Without(old(fds[..numFds]), sock)
      ensures r == if sock in old(fds[..numFds]) then 0 else 1
    {
      var i := 0;
      ghost var was := fds[..numFds];
      while i < numFds
        invariant i <= numFds && sock !in was[..i]
        invariant fds[..numFds] == was
      {
        if fds[i] == sock {
          WithoutAt(was, i, sock);
          numFds := numFds - 1;
          forall k | i <= k < numFds {
            fds[k] := fds[k + 1];
          }
          assert fds[..numFds] == was[..i] + was[i + 1..];
          return 0;
        }
        i := i + 1;
      }
      WithoutAbsent(was, sock);
      return 1;
    }

    /** `socket`: `ret` is what the real call returned. */
    method SocketCall(ret: int, internet: bool)
      requires Valid()
      modifies this
      ensures Valid() && State() == After(old(State()), Socket(ret, internet))
    {
      if internet {
        var _ := AddSockToList(ret);
        if ret >= 0 {
          open := open + {ret};
        }
      }
    }

    method AcceptCall(listener: int, ret: int)
      requires Valid()
      modifies this
      ensures Valid() && State() == After(old(State()), Accept(listener, ret))
    {
      var tracked := IsInList(listener);
      if tracked {
        var _ := AddSockToList(ret);
      }
      if ret >= 0 && listener in open {
        open := open + {ret};
      }
    }

    method CloseCall(fd: int)
      requires Valid()
      modifies this, fds
      ensures Valid() && State() == After(old(State()), Close(fd))
    {
      var _ := RemoveSockFromList(fd);
      open, shut := open - {fd}, shut - {fd};
    }

    method SwitchNetwork(severity: nat)
      requires Valid()
      modifies this
      ensures Valid() && State() == After(old(State()), SwitchNet(severity))
    {
      if netState == 0 && severity != 0 {
        for i := 0 to numFds
          invariant fds == old(fds) && numFds == old(numFds) && netState == old(netState) && open == old(open)
          invariant shut == old(shut) + Elements(fds[..i])
        {
          assert fds[..i + 1] == fds[..i] + [fds[i]];
          shut := shut + {fds[i]};
        }
        numFds := 0;
        netState := 1;
        return;
      }
      if netState != 0 && severity == 0 {
        netState := 0;
      }
    }
  }

  lemma {:induction false} WithoutAt(s: seq<int>, i: nat, x: int)
    requires i < |s| && s[i] == x && x !in s[..i]
    ensures Without(s, x) == s[..i] + s[i + 1..]
  {
    if i > 0 {
      assert s[0] == s[..i][0];
      assert s[1..][..i - 1] == s[..i][1..];
      WithoutAt(s[1..], i - 1, x);
      assert s[..i] == [s[0]] + s[1..][..i - 1];
    }
  }

  lemma {:induction false} WithoutAbsent(s: seq<int>, x: int)
    requires x !in s
    ensures Without(s, x) == s
  {
    if s != [] {
      WithoutAbsent(s[1..], x);
    }
  }
}
