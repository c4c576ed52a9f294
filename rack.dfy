/** The rack workspace: module widgets placed on the rack grid without overlap,
    the nearest-free-position search, and the cable container they share. */
module Rack {
  import opened Grid
  import opened Seqs
  import opened Wires

  /** The furthest ring, in grid cells, that the nearest-position search visits. */
  const SearchRadius: nat := 400

  /** A module on the rack: the model it was created from, its box on the grid and
      its ports, in the order they were added. */
  class ModuleWidget {
    /** Identifies the module's model (plugin and slug) for re-instantiation. */
    const model: string
    var box: Box
    var inputs: seq<Port>
    var outputs: seq<Port>

    /** A fresh widget of the given model, `hp` columns wide, at the rack's origin. */
    constructor (model: string, hp: nat)
      ensures this.model == model && box == Box(0, 0, hp)
      ensures inputs == [] && outputs == []
    {
      this.model := model;
      box := Box(0, 0, hp);
      inputs, outputs := [], [];
    }

    /** addInput: the port becomes the widget's last input. */
    method AddInput(input: Port)
      modifies this
      ensures inputs == old(inputs) + [input]
      ensures outputs == old(outputs) && box == old(box)
    {
      inputs := inputs + [input];
    }

    /** addOutput: the port becomes the widget's last output. */
    method AddOutput(output: Port)
      modifies this
      ensures outputs == old(outputs) + [output]
      ensures inputs == old(inputs) && box == old(box)
    {
      outputs := outputs + [output];
    }
  }

  function Abs(x: int): nat
  {
    if x < 0 then -x else x
  }

  /** The ring of `c` around the requested box: its Chebyshev distance in grid cells. */
  function Ring(req: Box, c: Box): nat
  {
    var dc := Abs(c.col - req.col);
    var dr := Abs(c.row - req.row);
    if dc < dr then dr else dc
  }

  /** The positions the search tries for `req`: boxes of the same width within the
      search radius. */
  predicate Candidate(req: Box, c: Box)
  {
    c.hp == req.hp && Ring(req, c) <= SearchRadius
  }

  /** The search visits `c` before the cell (`row`, `col`) of ring `r`: rings go outward,
      each ring row by row from the top, each row from left to right. */
  predicate ScannedBefore(req: Box, c: Box, r: int, row: int, col: int)
  {
    Ring(req, c) < r || (Ring(req, c) == r && (c.row < row || (c.row == row && c.col < col)))
  }

  /** `a` comes before `b` in the search order. */
  predicate Before(req: Box, a: Box, b: Box)
  {
    ScannedBefore(req, a, Ring(req, b), b.row, b.col)
  }

  /** The search order is total: of two different candidates, one comes first. */
  lemma BeforeTotal(req: Box, a: Box, b: Box)
    requires Candidate(req, a) && Candidate(req, b) && a != b
    ensures Before(req, a, b) || Before(req, b, a)
    ensures !(Before(req, a, b) && Before(req, b, a))
  {
  }

  /** The rack: the module widgets in z-order (insertion order) and the cable container. */
  class RackWidget {
    var modules: seq<ModuleWidget>
    const wireContainer: WireContainer

    /** Each widget sits in the rack once and the cable container is consistent. */
    ghost predicate Valid()
      reads this, wireContainer, wireContainer.children
    {
      Distinct(modules) && wireContainer.Valid()
    }

    /** No two modules of the rack overlap. */
    ghost predicate NoOverlap()
      reads this, modules
    {
      forall a, b :: a in modules && b in modules && a != b ==> !Overlaps(a.box, b.box)
    }

    /** Box `b` overlaps a module of the rack other than `m`. */
    ghost predicate CollidesWithOther(m: ModuleWidget, b: Box)
      reads this, modules
    {
      exists o :: o in modules && o != m && Overlaps(b, o.box)
    }

    /** `m` may take box `b`: inside the rack and clear of every other module. */
    ghost predicate Fits(m: ModuleWidget, b: Box)
      reads this, modules
    {
      InBounds(b) && !CollidesWithOther(m, b)
    }

    /** `b` is the first position in the search order around `req` where `m` fits. */
    ghost predicate IsNearest(m: ModuleWidget, req: Box, b: Box)
      reads this, modules
    {
      && Candidate(req, b)
      && Fits(m, b)
      && forall c :: Candidate(req, c) && Before(req, c, b) ==> !Fits(m, c)
    }

    /** The search is deterministic: exactly one position is first in the search order,
        so the same rack and request always give the same box. */
    lemma NearestUnique(m: ModuleWidget, req: Box, a: Box, b: Box)
      requires IsNearest(m, req, a) && IsNearest(m, req, b)
      ensures a == b
    {
      if a != b {
        BeforeTotal(req, a, b);
      }
    }

    /** An empty rack with an empty cable container. */
    constructor ()
      ensures Valid() && modules == [] && NoOverlap()
      ensures fresh(wireContainer) && wireContainer.children == [] && wireContainer.activeWire == null
    {
      modules := [];
      wireContainer := new WireContainer();
    }

    /** Whether box `b` overlaps a module other than `m`. */
    method Collides(m: ModuleWidget, b: Box) returns (hit: bool)
      ensures hit <==> CollidesWithOther(m, b)
    {
      hit := false;
      var i := 0;
      while i < |modules| && !hit
        invariant 0 <= i <= |modules|
        invariant hit <==> exists k :: 0 <= k < i && modules[k] != m && Overlaps(b, modules[k].box)
      {
        if modules[i] != m && Overlaps(b, modules[i].box) {
          hit := true;
        }
        i := i + 1;
      }
    }

    /** Sets `m`'s box to `b` if `b` is inside the rack and collides with no other
        module; returns whether it did. Nothing else changes. */
    method RequestModuleBox(m: ModuleWidget, b: Box) returns (ok: bool)
      modifies m`box
      ensures ok <==> old(Fits(m, b))
      ensures m.box == if ok then b else old(m.box)
      ensures old(NoOverlap()) ==> NoOverlap()
    {
      if !InBounds(b) {
        return false;
      }
      var hit := Collides(m, b);
      if hit {
        return false;
      }
      m.box := b;
      ok := true;
    }

    /** The first position in the search order around `req` where `m` fits, or None
        when no candidate within the search radius fits. */
    method FindNearest(m: ModuleWidget, req: Box) returns (found: Option<Box>)
      ensures found.Some? ==> IsNearest(m, req, found.value)
      ensures found.None? ==> forall c :: Candidate(req, c) ==> !Fits(m, c)
    {
      var r := 0;
      while r <= SearchRadius
        invariant 0 <= r <= SearchRadius + 1
        invariant forall c :: Candidate(req, c) && Ring(req, c) < r ==> !Fits(m, c)
      {
        var row := req.row - r;
        while row <= req.row + r
          invariant req.row - r <= row <= req.row + r + 1
          invariant forall c :: Candidate(req, c) && ScannedBefore(req, c, r, row, req.col - r) ==> !Fits(m, c)
        {
          var col := req.col - r;
          while col <= req.col + r
            invariant req.col - r <= col <= req.col + r + 1
            invariant forall c :: Candidate(req, c) && ScannedBefore(req, c, r, row, col) ==> !Fits(m, c)
          {
            var c := Box(col, row, req.hp);
            if Ring(req, c) == r && InBounds(c) {
              var hit := Collides(m, c);
              if !hit {
                return Some(c);
              }
            }
            col := col + 1;
          }
          row := row + 1;
        }
        r := r + 1;
      }
      found := None;
    }

    /** Moves `m` to the closest position where it fits, searching outward from `req`;
        when none fits within the search radius, `m` keeps its box. */
    method RequestModuleBoxNearest(m: ModuleWidget, req: Box) returns (ok: bool)
      modifies m`box
      ensures ok ==> IsNearest(m, req, m.box)
      ensures !ok ==> m.box == old(m.box) && forall c :: Candidate(req, c) ==> !Fits(m, c)
      ensures old(Fits(m, req)) ==> ok && m.box == req
      ensures old(NoOverlap()) ==> NoOverlap()
    {
      var found := FindNearest(m, req);
      if found.None? {
        assert Candidate(req, req);
        return false;
      }
      var b := found.value;
      if Fits(m, req) && b != req {
        assert Before(req, req, b);
      }
      m.box := b;
      ok := true;
    }

    /** Inserts `m` as the topmost module at its current box. */
    method AddModule(m: ModuleWidget)
      requires Valid() && m !in modules
      modifies this
      ensures Valid()
      ensures modules == old(modules) + [m]
      ensures old(NoOverlap()) && old(Fits(m, m.box)) ==> NoOverlap()
    {
      modules := modules + [m];
    }

    /** Removes `m` from the rack, the other modules keeping their order; the widget
        itself is handed back to the caller, not destroyed. */
    method DeleteModule(m: ModuleWidget)
      requires Valid()
      modifies this
      ensures Valid()
      ensures modules == Remove(old(modules), m)
      ensures m !in modules
      ensures m in old(modules) ==> |modules| == |old(modules)| - 1
      ensures old(NoOverlap()) ==> NoOverlap()
    {
      var i := IndexOf(modules, m);
      if i < 0 {
        RemoveAbsent(modules, m);
        return;
      }
      RemoveAt(modules, i);
      RemoveDistinct(modules, m);
      modules := modules[..i] + modules[i + 1..];
    }

    /** Disconnects the cables from all of `m`'s ports: every cable with an end at one
        of them is removed and the other cables keep their order. A dragged cable with
        no end at them stays dragged and stops hovering them. */
    method DisconnectModule(m: ModuleWidget)
      requires Valid()
      modifies wireContainer, wireContainer.Dragged()`hoveredOutputPort, wireContainer.Dragged()`hoveredInputPort
      ensures Valid()
      ensures wireContainer.children == Keep(old(wireContainer.children), m.inputs + m.outputs)
      ensures forall k :: 0 <= k < |m.inputs + m.outputs| ==>
                Stack(wireContainer.children, (m.inputs + m.outputs)[k]) == []
      ensures var a := old(wireContainer.activeWire);
        wireContainer.activeWire == if a != null && AtNone(a, m.inputs + m.outputs) then a else null
      ensures var a := wireContainer.activeWire; var ps := m.inputs + m.outputs;
        a != null ==>
          && a.hoveredOutputPort == (if old(a.hoveredOutputPort) in ps then null else old(a.hoveredOutputPort))
          && a.hoveredInputPort == (if old(a.hoveredInputPort) in ps then null else old(a.hoveredInputPort))
    {
      wireContainer.RemoveWiresAt(m.inputs + m.outputs);
    }

    /** Completely clears the rack's modules and cables. */
    method Clear()
      requires Valid()
      modifies this, wireContainer
      ensures Valid() && NoOverlap()
      ensures modules == [] && wireContainer.children == [] && wireContainer.activeWire == null
    {
      modules := [];
      wireContainer.children := [];
      wireContainer.activeWire := null;
    }

    /** Adds a copy of `m`: a new widget of the same model and width, moved to the
        position nearest to `m`'s box where it fits, and added on top. When no position
        within the search radius fits, the copy is added at `m`'s box. */
    method CloneModule(m: ModuleWidget) returns (clone: ModuleWidget, placed: bool)
      requires Valid()
      modifies this
      ensures Valid() && fresh(clone)
      ensures clone.model == m.model && clone.box.hp == m.box.hp
      ensures modules == old(modules) + [clone]
      ensures placed ==> IsNearest(clone, m.box, clone.box)
      ensures !placed ==> clone.box == m.box
      ensures placed && old(NoOverlap()) ==> NoOverlap()
    {
      clone := new ModuleWidget(m.model, m.box.hp);
      clone.box := m.box;
      placed := RequestModuleBoxNearest(clone, m.box);
      modules := modules + [clone];
    }
  }

  /** Two one-column modules side by side: moving the left one onto the right one is
      refused and leaves it in place, and the nearest request puts it back in its own
      cell, the first free cell of the search order. */
  method PlacementScenario()
  {
    var rack := new RackWidget();
    var a := new ModuleWidget("A", 1);
    var b := new ModuleWidget("B", 1);
    b.box := Box(1, 0, 1);
    rack.AddModule(a);
    rack.AddModule(b);
    var req := Box(1, 0, 1);
    assert rack.CollidesWithOther(a, req) by {
      assert b in rack.modules && b != a && Overlaps(req, b.box);
    }
    var ok := rack.RequestModuleBox(a, req);
    assert !ok && a.box == Box(0, 0, 1);
    var left := Box(0, 0, 1);
    assert rack.Fits(a, left);
    ok := rack.RequestModuleBoxNearest(a, req);
    assert ok by {
      assert Candidate(req, left);
    }
    forall c | Candidate(req, c) && Before(req, c, left) ensures !rack.Fits(a, c) {
      if Ring(req, c) == 0 {
        assert c == req;
        assert b in rack.modules && b != a && Overlaps(c, b.box);
      }
    }
    assert rack.IsNearest(a, req, left);
    rack.NearestUnique(a, req, a.box, left);
    assert a.box == left;
  }

  /** Drags a new cable from `out` into an empty container and drops it on `inp`. */
  method PlugCable(cables: WireContainer, out: Port, inp: Port) returns (w: WireWidget)
    requires cables.Valid() && cables.children == [] && cables.activeWire == null
    requires out.kind == Output && inp.kind == Input
    modifies cables
    ensures cables.Valid() && cables.children == [w] && cables.activeWire == null
    ensures w.outputPort == out && w.inputPort == inp && w.plugged
  {
    w := new WireWidget();
    w.outputPort := out;
    cables.SetActiveWire(w);
    w.hoveredInputPort := inp;
    assert cables.Valid();
    cables.CommitActiveWire();
  }

  /** A cable dragged from an output and dropped on an input is plugged and becomes the
      top of the input's stack. */
  method CableScenario()
  {
    var cables := new WireContainer();
    var out := new Port.Create(Output, 0, 0);
    var inp := new Port.Create(Input, 1, 0);
    var w := PlugCable(cables, out, inp);
    LastIsTop(cables.children);
    var top := cables.GetTopWire(inp);
    assert top == w;
  }

  /** Disconnecting a module removes the one cable plugged into its only port. */
  method DisconnectOneCable(rack: RackWidget, m: ModuleWidget, w: WireWidget, inp: Port)
    requires rack.Valid() && m.inputs == [inp] && m.outputs == []
    requires rack.wireContainer.children == [w] && w.inputPort == inp
    requires rack.wireContainer.activeWire == null
    modifies rack.wireContainer
    ensures rack.Valid() && rack.wireContainer.children == []
  {
    assert m.inputs + m.outputs == [inp];
    assert Keep(rack.wireContainer.children, [inp]) == [] by {
      KeepSingleton(w, [inp]);
      AtNoneSingle(w, inp);
    }
    rack.DisconnectModule(m);
  }

  /** A module with a cable dragged into its input: disconnecting it leaves the rack
      without cables, and deleting it leaves the rack empty. */
  method DisconnectScenario()
  {
    var inp := new Port.Create(Input, 1, 0);
    var out := new Port.Create(Output, 0, 0);
    var b := new ModuleWidget("B", 1);
    b.AddInput(inp);
    var rack := new RackWidget();
    rack.AddModule(b);
    var w := PlugCable(rack.wireContainer, out, inp);
    DisconnectOneCable(rack, b, w, inp);
    rack.DeleteModule(b);
    assert rack.modules == [] && rack.wireContainer.children == [];
  }
}
