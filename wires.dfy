/** Ports, cables and the cable container: each port has a stack of cables,
    the most recently added on top, and at most one cable is being dragged. */
module Wires {
  import opened Seqs

  /** The direction of a port. */
  datatype PortType = Input | Output

  /** A connection point of a module. Its direction, engine module and id are fixed
      when the port is created. */
  class Port {
    const kind: PortType
    /** Handle of the engine module the port belongs to. */
    const engineModule: nat
    const portId: int

    /** Port::create: a port of the given direction and id on the given module. */
    constructor Create(kind: PortType, engineModule: nat, portId: int)
      ensures this.kind == kind && this.engineModule == engineModule && this.portId == portId
    {
      this.kind := kind;
      this.engineModule := engineModule;
      this.portId := portId;
    }
  }

  /** A cable widget: its two plugged ends, the ports its free end is hovering during a
      drag, and whether it owns an engine connection. */
  class WireWidget {
    var outputPort: Port?
    var inputPort: Port?
    var hoveredOutputPort: Port?
    var hoveredInputPort: Port?
    /** True when the widget owns an engine wire. */
    var plugged: bool

    constructor ()
      ensures outputPort == null && inputPort == null
      ensures hoveredOutputPort == null && hoveredInputPort == null && !plugged
    {
      outputPort, inputPort := null, null;
      hoveredOutputPort, hoveredInputPort := null, null;
      plugged := false;
    }

    /** Synchronizes the plugged state with the ends: the engine holds a wire exactly
        when both ends are plugged. */
    method UpdateWire()
      modifies this
      ensures plugged <==> Complete(this)
      ensures outputPort == old(outputPort) && inputPort == old(inputPort)
      ensures hoveredOutputPort == old(hoveredOutputPort) && hoveredInputPort == old(hoveredInputPort)
    {
      plugged := outputPort != null && inputPort != null;
    }
  }

  /** The output end sits on an output port and the input end on an input port,
      plugged or hovered. */
  predicate WellTyped(w: WireWidget)
    reads w
  {
    && (w.outputPort != null ==> w.outputPort.kind == Output)
    && (w.inputPort != null ==> w.inputPort.kind == Input)
    && (w.hoveredOutputPort != null ==> w.hoveredOutputPort.kind == Output)
    && (w.hoveredInputPort != null ==> w.hoveredInputPort.kind == Input)
  }

  /** Both ends are plugged. A cable still being dragged has a free end. */
  predicate Complete(w: WireWidget)
    reads w`outputPort, w`inputPort
  {
    w.outputPort != null && w.inputPort != null
  }

  /** One of the cable's plugged ends is `p`. */
  predicate AtPort(w: WireWidget, p: Port)
    reads w`outputPort, w`inputPort
  {
    w.outputPort == p || w.inputPort == p
  }

  /** The cable is connected to `p`: plugged at both ends, one of them `p`. */
  predicate OnStack(w: WireWidget, p: Port)
    reads w`outputPort, w`inputPort
  {
    Complete(w) && AtPort(w, p)
  }

  /** The cable stack of `p`: the cables of `ws` connected to `p`, oldest first,
      so that the last one is the top. */
  function Stack(ws: seq<WireWidget>, p: Port): (s: seq<WireWidget>)
    reads ws`outputPort, ws`inputPort
    ensures |s| <= |ws|
  {
    if ws == [] then []
    else (if OnStack(ws[0], p) then [ws[0]] else []) + Stack(ws[1..], p)
  }

  /** The stack of `p` holds exactly the cables of `ws` connected to `p`. */
  lemma {:induction false} StackMembers(ws: seq<WireWidget>, p: Port)
    ensures forall k :: 0 <= k < |Stack(ws, p)| ==> Stack(ws, p)[k] in ws && OnStack(Stack(ws, p)[k], p)
    ensures forall k :: 0 <= k < |ws| && OnStack(ws[k], p) ==> ws[k] in Stack(ws, p)
  {
    if ws != [] {
      StackMembers(ws[1..], p);
      var h := if OnStack(ws[0], p) then [ws[0]] else [];
      var t := Stack(ws[1..], p);
      assert Stack(ws, p) == h + t;
      forall k | 0 <= k < |ws| && OnStack(ws[k], p) ensures ws[k] in Stack(ws, p) {
        if k > 0 {
          assert ws[k] == ws[1..][k - 1];
        }
      }
    }
  }

  /** The cable has no plugged end at any of `ps`. */
  predicate AtNone(w: WireWidget, ps: seq<Port>)
    reads w`outputPort, w`inputPort
  {
    forall k :: 0 <= k < |ps| ==> !AtPort(w, ps[k])
  }

  /** The cables of `ws` with no end at any of `ps`, in their order. */
  function Keep(ws: seq<WireWidget>, ps: seq<Port>): (r: seq<WireWidget>)
    reads ws`outputPort, ws`inputPort
    ensures |r| <= |ws|
  {
    if ws == [] then []
    else (if AtNone(ws[0], ps) then [ws[0]] else []) + Keep(ws[1..], ps)
  }

  /** The filter keeps exactly the cables of `ws` with no end at any of `ps`. */
  lemma {:induction false} KeepMembers(ws: seq<WireWidget>, ps: seq<Port>)
    ensures forall k :: 0 <= k < |Keep(ws, ps)| ==> Keep(ws, ps)[k] in ws && AtNone(Keep(ws, ps)[k], ps)
    ensures forall k :: 0 <= k < |ws| && AtNone(ws[k], ps) ==> ws[k] in Keep(ws, ps)
  {
    if ws != [] {
      KeepMembers(ws[1..], ps);
      var h := if AtNone(ws[0], ps) then [ws[0]] else [];
      var t := Keep(ws[1..], ps);
      assert Keep(ws, ps) == h + t;
      forall k | 0 <= k < |ws| && AtNone(ws[k], ps) ensures ws[k] in Keep(ws, ps) {
        if k > 0 {
          assert ws[k] == ws[1..][k - 1];
        }
      }
    }
  }

  /** The stack of a concatenation is the concatenation of the stacks. */
  lemma {:induction false} StackAppend(a: seq<WireWidget>, b: seq<WireWidget>, p: Port)
    ensures Stack(a + b, p) == Stack(a, p) + Stack(b, p)
  {
    if a == [] {
      assert a + b == b;
    } else {
      assert (a + b)[0] == a[0];
      assert (a + b)[1..] == a[1..] + b;
      StackAppend(a[1..], b, p);
      var h := if OnStack(a[0], p) then [a[0]] else [];
      calc {
        Stack(a + b, p);
        h + Stack(a[1..] + b, p);
        h + (Stack(a[1..], p) + Stack(b, p));
        (h + Stack(a[1..], p)) + Stack(b, p);
        Stack(a, p) + Stack(b, p);
      }
    }
  }

  /** Filtering a concatenation filters each part. */
  lemma {:induction false} KeepAppend(a: seq<WireWidget>, b: seq<WireWidget>, ps: seq<Port>)
    ensures Keep(a + b, ps) == Keep(a, ps) + Keep(b, ps)
  {
    if a == [] {
      assert a + b == b;
    } else {
      assert (a + b)[0] == a[0];
      assert (a + b)[1..] == a[1..] + b;
      KeepAppend(a[1..], b, ps);
      var h := if AtNone(a[0], ps) then [a[0]] else [];
      calc {
        Keep(a + b, ps);
        h + Keep(a[1..] + b, ps);
        h + (Keep(a[1..], ps) + Keep(b, ps));
        (h + Keep(a[1..], ps)) + Keep(b, ps);
        Keep(a, ps) + Keep(b, ps);
      }
    }
  }

  /** A one-cable list keeps its cable exactly when the cable has no end at `ps`. */
  lemma KeepSingleton(w: WireWidget, ps: seq<Port>)
    ensures Keep([w], ps) == if AtNone(w, ps) then [w] else []
  {
    assert [w][1..] == [];
  }

  lemma AtNoneSingle(w: WireWidget, p: Port)
    ensures AtNone(w, [p]) <==> !AtPort(w, p)
  {
    assert [p][0] == p;
  }

  /** Dropping the cables at `p` from a list already free of the cables at `ps` leaves
      exactly the cables free of `ps + [p]`. */
  lemma {:induction false} KeepStep(ws: seq<WireWidget>, ps: seq<Port>, p: Port)
    ensures Keep(Keep(ws, ps), [p]) == Keep(ws, ps + [p])
  {
    if ws != [] {
      KeepStep(ws[1..], ps, p);
      var w := ws[0];
      assert AtNone(w, ps + [p]) <==> AtNone(w, ps) && AtNone(w, [p]) by {
        if AtNone(w, ps) && AtNone(w, [p]) {
          forall k | 0 <= k < |ps + [p]| ensures !AtPort(w, (ps + [p])[k]) {
            if k < |ps| {
              assert (ps + [p])[k] == ps[k];
            } else {
              assert (ps + [p])[k] == [p][0];
            }
          }
        }
        if AtNone(w, ps + [p]) {
          forall k | 0 <= k < |ps| ensures !AtPort(w, ps[k]) {
            assert (ps + [p])[k] == ps[k];
          }
          assert (ps + [p])[|ps|] == p;
        }
      }
      var hw := if AtNone(w, ps) then [w] else [];
      assert Keep(ws, ps) == hw + Keep(ws[1..], ps);
      KeepAppend(hw, Keep(ws[1..], ps), [p]);
      if AtNone(w, ps) {
        KeepSingleton(w, [p]);
      }
      assert Keep(hw, [p]) == if AtNone(w, ps + [p]) then [w] else [];
    }
  }

  /** Filtering keeps a list free of repetitions. */
  lemma {:induction false} KeepDistinct(ws: seq<WireWidget>, ps: seq<Port>)
    requires Distinct(ws)
    ensures Distinct(Keep(ws, ps))
  {
    if ws != [] {
      KeepDistinct(ws[1..], ps);
      KeepMembers(ws[1..], ps);
    }
  }

  /** No cable left by the filter has an end at a filtered port, so each of those
      ports has an empty stack. */
  lemma {:induction false} KeepEmptiesStacks(ws: seq<WireWidget>, ps: seq<Port>, k: nat)
    requires k < |ps|
    ensures Stack(Keep(ws, ps), ps[k]) == []
  {
    if ws != [] {
      KeepEmptiesStacks(ws[1..], ps, k);
      var hw := if AtNone(ws[0], ps) then [ws[0]] else [];
      assert Keep(ws, ps) == hw + Keep(ws[1..], ps);
      StackAppend(hw, Keep(ws[1..], ps), ps[k]);
      assert hw != [] ==> !OnStack(ws[0], ps[k]);
      assert [ws[0]][1..] == [];
    }
  }

  /** Filtering by no ports keeps every cable. */
  lemma {:induction false} KeepNothing(ws: seq<WireWidget>)
    ensures Keep(ws, []) == ws
  {
    if ws != [] {
      KeepNothing(ws[1..]);
      assert ws == [ws[0]] + ws[1..];
    }
  }

  /** Filtering by one more port of a list extends its prefix by one. */
  lemma KeepPrefixStep(ws: seq<WireWidget>, ps: seq<Port>, k: nat)
    requires k < |ps|
    ensures Keep(Keep(ws, ps[..k]), [ps[k]]) == Keep(ws, ps[..k + 1])
  {
    KeepStep(ws, ps[..k], ps[k]);
    assert ps[..k + 1] == ps[..k] + [ps[k]];
  }

  /** A list's full prefix is the list. */
  lemma KeepWhole(ws: seq<WireWidget>, ps: seq<Port>)
    ensures Keep(ws, ps[..|ps|]) == Keep(ws, ps)
  {
    assert ps[..|ps|] == ps;
  }

  /** One more port of a list: a cable is free of the longer prefix exactly when it is
      free of the shorter one and of the new port, and the new port joins the members. */
  lemma PrefixStep(w: WireWidget?, ps: seq<Port>, k: nat)
    requires k < |ps|
    ensures w != null ==> (AtNone(w, ps[..k + 1]) <==> AtNone(w, ps[..k]) && !AtPort(w, ps[k]))
    ensures forall q: Port? :: q in ps[..k + 1] <==> q in ps[..k] || q == ps[k]
  {
    assert ps[..k + 1] == ps[..k] + [ps[k]];
    var longer := ps[..k + 1];
    if w != null && AtNone(w, ps[..k]) && !AtPort(w, ps[k]) {
      forall j | 0 <= j < k + 1 ensures !AtPort(w, longer[j]) {
        if j < k {
          assert longer[j] == ps[..k][j];
        }
      }
    }
    if w != null && AtNone(w, ps[..k + 1]) {
      assert ps[..k + 1][k] == ps[k];
      forall j | 0 <= j < k ensures !AtPort(w, ps[..k][j]) {
        assert ps[..k + 1][j] == ps[..k][j];
      }
    }
  }

  /** The filter empties the stack of every filtered port. */
  lemma EmptiesAllStacks(ws: seq<WireWidget>, ps: seq<Port>)
    ensures forall k :: 0 <= k < |ps| ==> Stack(Keep(ws, ps), ps[k]) == []
  {
    forall k | 0 <= k < |ps| ensures Stack(Keep(ws, ps), ps[k]) == [] {
      KeepEmptiesStacks(ws, ps, k);
    }
  }

  /** Deleting one cable deletes it from every stack and leaves the rest of each stack
      in order. */
  lemma {:induction false} StackOfRemove(ws: seq<WireWidget>, x: WireWidget, q: Port)
    ensures Stack(Remove(ws, x), q) == Remove(Stack(ws, q), x)
  {
    if ws != [] {
      StackOfRemove(ws[1..], x, q);
      var h := if OnStack(ws[0], q) then [ws[0]] else [];
      var t := Stack(ws[1..], q);
      assert Stack(ws, q) == h + t;
      if ws[0] == x {
        if h != [] {
          assert (h + t)[0] == x && (h + t)[1..] == t;
        } else {
          assert h + t == t;
        }
      } else {
        var r := Remove(ws[1..], x);
        assert Remove(ws, x) == [ws[0]] + r;
        assert ([ws[0]] + r)[0] == ws[0] && ([ws[0]] + r)[1..] == r;
        assert Stack([ws[0]] + r, q) == h + Stack(r, q);
        if h != [] {
          assert (h + t)[0] == ws[0] && (h + t)[1..] == t;
        } else {
          assert h + t == t;
        }
      }
    }
  }

  /** A stack of a list without repetitions has none either. */
  lemma {:induction false} StackDistinct(ws: seq<WireWidget>, p: Port)
    requires Distinct(ws)
    ensures Distinct(Stack(ws, p))
  {
    if ws != [] {
      StackDistinct(ws[1..], p);
      StackMembers(ws[1..], p);
    }
  }

  /** Appending a cable pushes it onto the stack of `p` when it is connected to `p`,
      and leaves the stack of `p` as it was otherwise. */
  lemma PushTop(ws: seq<WireWidget>, w: WireWidget, p: Port)
    ensures Stack(ws + [w], p) == if OnStack(w, p) then Stack(ws, p) + [w] else Stack(ws, p)
  {
    StackAppend(ws, [w], p);
    assert [w][1..] == [];
  }

  /** A plugged cable that is the last child is the top of the stacks of both of its
      ports: the most recently connected cable is the one removeTopWire takes first. */
  lemma LastIsTop(ws: seq<WireWidget>)
    requires ws != [] && Complete(ws[|ws| - 1])
    ensures var w := ws[|ws| - 1];
      && Stack(ws, w.outputPort) != [] && Stack(ws, w.outputPort)[|Stack(ws, w.outputPort)| - 1] == w
      && Stack(ws, w.inputPort) != [] && Stack(ws, w.inputPort)[|Stack(ws, w.inputPort)| - 1] == w
  {
    var w := ws[|ws| - 1];
    assert ws == ws[..|ws| - 1] + [w];
    PushTop(ws[..|ws| - 1], w, w.outputPort);
    PushTop(ws[..|ws| - 1], w, w.inputPort);
  }

  /** Popping the top cable of `p` from a list without repetitions leaves the stack of
      `p` without its top and the rest in order. */
  lemma PopStack(ws: seq<WireWidget>, p: Port)
    requires Distinct(ws) && Stack(ws, p) != []
    ensures var s := Stack(ws, p); Stack(Remove(ws, s[|s| - 1]), p) == s[..|s| - 1]
  {
    var s := Stack(ws, p);
    StackOfRemove(ws, s[|s| - 1], p);
    StackDistinct(ws, p);
    RemoveLast(s);
  }

  /** The top of a non-empty stack is one of the list's cables. */
  lemma TopOnList(ws: seq<WireWidget>, p: Port)
    requires Stack(ws, p) != []
    ensures var s := Stack(ws, p); s[|s| - 1] in ws && OnStack(s[|s| - 1], p)
  {
    StackMembers(ws, p);
  }

  /** Cutting the top cable of `p` out at its position `i` is popping `p`'s stack. */
  lemma PopAt(ws: seq<WireWidget>, p: Port, i: int)
    requires Distinct(ws) && 0 <= i < |ws|
    requires var s := Stack(ws, p); s != [] && ws[i] == s[|s| - 1]
    ensures var r := ws[..i] + ws[i + 1..];
      && r == Remove(ws, ws[i])
      && Distinct(r)
      && OnStack(ws[i], p)
      && var s := Stack(ws, p); Stack(r, p) == s[..|s| - 1]
  {
    PopStack(ws, p);
    TopOnList(ws, p);
    RemoveAt(ws, i);
    RemoveDistinct(ws, ws[i]);
  }

  /** The list once the top cable of `p` is removed; unchanged when `p`'s stack is empty. */
  function PopTop(ws: seq<WireWidget>, p: Port): seq<WireWidget>
    reads ws`outputPort, ws`inputPort
  {
    var s := Stack(ws, p);
    if s == [] then ws else Remove(ws, s[|s| - 1])
  }

  /** removeTopWire pops the stack of `p`: the rest of it stays in order below. */
  lemma PopTopStack(ws: seq<WireWidget>, p: Port)
    requires Distinct(ws)
    ensures var s := Stack(ws, p); Stack(PopTop(ws, p), p) == if s == [] then [] else s[..|s| - 1]
  {
    if Stack(ws, p) != [] {
      PopStack(ws, p);
    }
  }

  /** removeTopWire removes only the top cable: it is cut out at its one position and
      every other cable keeps its place in the order. */
  lemma PopTopRemovesOne(ws: seq<WireWidget>, p: Port)
    requires Distinct(ws) && Stack(ws, p) != []
    ensures var s := Stack(ws, p);
      exists i :: 0 <= i < |ws| && ws[i] == s[|s| - 1] && PopTop(ws, p) == ws[..i] + ws[i + 1..]
  {
    var s := Stack(ws, p);
    TopOnList(ws, p);
    var i :| 0 <= i < |ws| && ws[i] == s[|s| - 1];
    RemoveAt(ws, i);
  }

  /** The cable container's list after setActiveWire(w): a different cable that was
      being dragged is discarded, and `w` is appended unless it is already a child. */
  function AfterSetActive(children: seq<WireWidget>, active: WireWidget?, w: WireWidget?): seq<WireWidget>
  {
    var kept := Discarding(children, active, w);
    if w != null && w !in kept then kept + [w] else kept
  }

  /** The children once a dragged cable other than `w` has been discarded. */
  function Discarding(children: seq<WireWidget>, active: WireWidget?, w: WireWidget?): seq<WireWidget>
  {
    if active != null && active != w then var a: WireWidget := active; Remove(children, a) else children
  }

  /** setActiveWire never duplicates a child and always leaves `w` among the children. */
  lemma SetActiveKeepsChildrenDistinct(children: seq<WireWidget>, active: WireWidget?, w: WireWidget?)
    requires Distinct(children)
    ensures Distinct(AfterSetActive(children, active, w))
    ensures w != null ==> w in AfterSetActive(children, active, w)
    ensures active != null && active != w ==> active !in AfterSetActive(children, active, w)
    ensures w != null && w !in children ==>
      var r := AfterSetActive(children, active, w); |r| > 0 && r[|r| - 1] == w
  {
    if active != null && active != w {
      var a: WireWidget := active;
      RemoveDistinct(children, a);
      RemoveMembers(children, a);
    }
  }

  /** Calling setActiveWire(w) a second time changes nothing: no cable is added twice. */
  lemma SetActiveIdempotent(children: seq<WireWidget>, active: WireWidget?, w: WireWidget?)
    ensures AfterSetActive(AfterSetActive(children, active, w), w, w) == AfterSetActive(children, active, w)
  {
    var once := AfterSetActive(children, active, w);
    assert w != null ==> w in once;
  }

  /** The cable container. Its children are the cable widgets in the order they were
      added; `activeWire` is the cable being dragged, if any. */
  class WireContainer {
    var children: seq<WireWidget>
    var activeWire: WireWidget?

    /** Each cable is a child once, every cable joins an output to an input, and the
        dragged cable is a child with a free end. */
    ghost predicate Valid()
      reads this, children
    {
      && Distinct(children)
      && (forall k :: 0 <= k < |children| ==> WellTyped(children[k]))
      && (activeWire != null ==> activeWire in children && !Complete(activeWire))
    }

    constructor ()
      ensures Valid() && children == [] && activeWire == null
    {
      children := [];
      activeWire := null;
    }

    /** Takes ownership of `w`, adds it as a child if it is not one already, and makes it
        the dragged cable; a different cable that was being dragged is discarded. */
    method SetActiveWire(w: WireWidget?)
      requires Valid()
      requires w != null ==> WellTyped(w) && !Complete(w)
      modifies this
      ensures Valid()
      ensures activeWire == w
      ensures children == AfterSetActive(old(children), old(activeWire), w)
    {
      SetActiveKeepsChildrenDistinct(children, activeWire, w);
      ghost var kept := Discarding(children, activeWire, w);
      if activeWire != null && activeWire != w {
        var a: WireWidget := activeWire;
        var i := IndexOf(children, a);
        RemoveAt(children, i);
        EraseChild(i);
      }
      assert children == kept;
      if w != null {
        var x: WireWidget := w;
        var i := IndexOf(children, x);
        if i < 0 {
          children := children + [w];
        }
      }
      activeWire := w;
    }

    /** Drops the dragged cable: its free end takes the port it is hovering. If both ends
        are then plugged the engine connects it and it stays as a permanent child;
        otherwise it is removed. Afterwards no cable is being dragged. */
    method CommitActiveWire()
      requires Valid()
      modifies this, activeWire
      ensures Valid() && activeWire == null
      ensures old(activeWire) == null ==> children == old(children)
      ensures old(activeWire) != null ==>
        var w: WireWidget := old(activeWire);
        && w.outputPort == (if old(w.hoveredOutputPort) != null then old(w.hoveredOutputPort) else old(w.outputPort))
        && w.inputPort == (if old(w.hoveredInputPort) != null then old(w.hoveredInputPort) else old(w.inputPort))
        && w.hoveredOutputPort == null && w.hoveredInputPort == null
        && (w.plugged <==> Complete(w))
        && children == (if w.plugged then old(children) else Remove(old(children), w))
    {
      if activeWire == null {
        return;
      }
      var w: WireWidget := activeWire;
      if w.hoveredOutputPort != null {
        w.outputPort := w.hoveredOutputPort;
        w.hoveredOutputPort := null;
      }
      if w.hoveredInputPort != null {
        w.inputPort := w.hoveredInputPort;
        w.hoveredInputPort := null;
      }
      w.UpdateWire();
      if w.plugged {
        activeWire := null;
      } else {
        var i := IndexOf(children, w);
        RemoveAt(children, i);
        EraseChild(i);
      }
    }

    /** The most recently added cable connected to `p`, the top of its stack, or null
        when no cable is connected to `p`. */
    method GetTopWire(p: Port) returns (top: WireWidget?)
      ensures top == null <==> Stack(children, p) == []
      ensures top != null ==> top == Stack(children, p)[|Stack(children, p)| - 1]
    {
      var i := |children|;
      while i > 0
        invariant 0 <= i <= |children|
        invariant Stack(children[i..], p) == []
      {
        i := i - 1;
        if OnStack(children[i], p) {
          assert children == children[..i] + ([children[i]] + children[i + 1..]);
          StackAppend(children[..i], [children[i]] + children[i + 1..], p);
          assert children[i..] == [children[i]] + children[i + 1..];
          return children[i];
        }
        assert children[i..] == [children[i]] + children[i + 1..];
      }
      assert children[0..] == children;
      top := null;
    }

    /** Removes the top cable of `p`'s stack, if any; the other cables keep their order. */
    method RemoveTopWire(p: Port)
      requires Valid()
      modifies this
      ensures Valid() && activeWire == old(activeWire)
      ensures children == old(PopTop(children, p))
    {
      var found := GetTopWire(p);
      if found != null {
        var top: WireWidget := found;
        TopOnList(children, p);
        var i := IndexOf(children, top);
        PopAt(children, p, i);
        EraseChild(i);
      }
    }

    /** Removes the child at position `i`; the others keep their order. If it was the
        dragged cable, no cable is dragged any more. */
    method EraseChild(i: nat)
      requires Valid() && i < |children|
      modifies this
      ensures Valid()
      ensures children == old(children[..i] + children[i + 1..])
      ensures activeWire == if old(activeWire) == old(children[i]) then null else old(activeWire)
    {
      RemoveAt(children, i);
      RemoveDistinct(children, children[i]);
      if activeWire != null {
        if activeWire == children[i] {
          activeWire := null;
        } else {
          KeepsOthers(children, i, activeWire);
        }
      }
      children := children[..i] + children[i + 1..];
    }

    /** The children with no end at `p`, in their order: the cables that survive
        removeAllWires(p). */
    method CablesAwayFrom(p: Port) returns (kept: seq<WireWidget>)
      ensures kept == Keep(children, [p])
    {
      kept := [];
      var i := 0;
      while i < |children|
        invariant 0 <= i <= |children|
        invariant kept == Keep(children[..i], [p])
      {
        assert children[..i + 1] == children[..i] + [children[i]];
        KeepAppend(children[..i], [children[i]], [p]);
        KeepSingleton(children[i], [p]);
        AtNoneSingle(children[i], p);
        if !AtPort(children[i], p) {
          kept := kept + [children[i]];
        }
        i := i + 1;
      }
      assert children[..i] == children;
    }

    /** The dragged cable, as a frame: empty when no cable is dragged. */
    ghost function Dragged(): set<WireWidget>
      reads this
    {
      if activeWire == null then {} else {activeWire}
    }

    /** Removes every cable with an end at `p`, the dragged one included; the other
        cables keep their order. The dragged cable first stops hovering `p`, so that
        committing it later cannot plug it into a port whose cables were removed. */
    method RemoveAllWires(p: Port)
      requires Valid()
      modifies this, Dragged()`hoveredOutputPort, Dragged()`hoveredInputPort
      ensures Valid()
      ensures children == Keep(old(children), [p])
      ensures Stack(children, p) == []
      ensures activeWire == if old(activeWire) != null && AtPort(old(activeWire), p) then null else old(activeWire)
      ensures old(activeWire) != null ==>
        var a: WireWidget := old(activeWire);
        && a.hoveredOutputPort == (if old(a.hoveredOutputPort) == p then null else old(a.hoveredOutputPort))
        && a.hoveredInputPort == (if old(a.hoveredInputPort) == p then null else old(a.hoveredInputPort))
    {
      StopHovering(p);
      DropCablesAt(p);
    }

    /** Removes every cable with an end at `p`, the dragged one included; the other
        cables keep their order. */
    method DropCablesAt(p: Port)
      requires Valid()
      modifies this
      ensures Valid()
      ensures children == Keep(old(children), [p])
      ensures Stack(children, p) == []
      ensures activeWire == if old(activeWire) != null && AtPort(old(activeWire), p) then null else old(activeWire)
    {
      var kept := CablesAwayFrom(p);
      KeepDistinct(children, [p]);
      KeepMembers(children, [p]);
      if activeWire != null {
        AtNoneSingle(activeWire, p);
        if AtPort(activeWire, p) {
          activeWire := null;
        } else {
          assert activeWire in kept;
        }
      }
      assert forall k :: 0 <= k < |kept| ==> kept[k] in children;
      ghost var before := children;
      children := kept;
      KeepEmptiesStacks(before, [p], 0);
    }

    /** The dragged cable, if any, stops hovering `p`. */
    method StopHovering(p: Port)
      requires Valid()
      modifies Dragged()`hoveredOutputPort, Dragged()`hoveredInputPort
      ensures Valid()
      ensures old(activeWire) != null ==>
        var a: WireWidget := old(activeWire);
        && a.hoveredOutputPort == (if old(a.hoveredOutputPort) == p then null else old(a.hoveredOutputPort))
        && a.hoveredInputPort == (if old(a.hoveredInputPort) == p then null else old(a.hoveredInputPort))
    {
      if activeWire != null {
        var a: WireWidget := activeWire;
        if a.hoveredOutputPort == p {
          a.hoveredOutputPort := null;
        }
        if a.hoveredInputPort == p {
          a.hoveredInputPort := null;
        }
        assert WellTyped(a);
      }
    }

    /** The dragged cable after the cables at the first `k` of `ports` are removed, when
        `a0` was dragged before: `a0` while it has no end at those ports, then none. Its
        hovered ends `ho` and `hi` are cleared once they are among those ports. */
    ghost predicate DraggedAfter(a0: WireWidget?, ho: Port?, hi: Port?, ports: seq<Port>)
      reads this, activeWire, a0
    {
      && activeWire == (if a0 != null && AtNone(a0, ports) then a0 else null)
      && (activeWire != null ==>
            && activeWire.hoveredOutputPort == (if ho in ports then null else ho)
            && activeWire.hoveredInputPort == (if hi in ports then null else hi))
    }

    /** One step of RemoveWiresAt: removes the cables at the next port. */
    method RemoveNextPort(ghost before: seq<WireWidget>, ghost a0: WireWidget?, ghost ho: Port?, ghost hi: Port?,
                          ports: seq<Port>, k: nat)
      requires Valid() && k < |ports| && children == Keep(before, ports[..k])
      requires DraggedAfter(a0, ho, hi, ports[..k])
      modifies this, Dragged()`hoveredOutputPort, Dragged()`hoveredInputPort
      ensures Valid() && children == Keep(before, ports[..k + 1])
      ensures DraggedAfter(a0, ho, hi, ports[..k + 1])
    {
      KeepPrefixStep(before, ports, k);
      PrefixStep(a0, ports, k);
      RemoveAllWires(ports[k]);
    }

    /** Removes every cable with an end at one of `ports`, one port after the other. A
        dragged cable with no end at them stays dragged and stops hovering them. */
    method RemoveWiresAt(ports: seq<Port>)
      requires Valid()
      modifies this, Dragged()`hoveredOutputPort, Dragged()`hoveredInputPort
      ensures Valid()
      ensures children == Keep(old(children), ports)
      ensures forall k :: 0 <= k < |ports| ==> Stack(children, ports[k]) == []
      ensures activeWire == if old(activeWire) != null && AtNone(old(activeWire), ports) then old(activeWire) else null
      ensures activeWire != null ==>
        && activeWire.hoveredOutputPort == (if old(activeWire.hoveredOutputPort) in ports then null else old(activeWire.hoveredOutputPort))
        && activeWire.hoveredInputPort == (if old(activeWire.hoveredInputPort) in ports then null else old(activeWire.hoveredInputPort))
    {
      ghost var before := children;
      ghost var a0 := activeWire;
      ghost var ho := if a0 != null then a0.hoveredOutputPort else null;
      ghost var hi := if a0 != null then a0.hoveredInputPort else null;
      KeepNothing(before);
      var k := 0;
      while k < |ports|
        invariant 0 <= k <= |ports|
        invariant Valid()
        invariant children == Keep(before, ports[..k])
        invariant DraggedAfter(a0, ho, hi, ports[..k])
      {
        RemoveNextPort(before, a0, ho, hi, ports, k);
        k := k + 1;
      }
      KeepWhole(before, ports);
      assert ports[..k] == ports;
      EmptiesAllStacks(before, ports);
    }
  }
}
