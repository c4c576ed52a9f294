# Rack workspace, cable stacks and switches

A Dafny model of the core of VCV Rack's application layer as declared in
`include/app.hpp`. It covers three parts:

- **The rack workspace (`RackWidget`).** The model keeps module widgets on the rack grid and places them without overlap. `requestModuleBox` sets a box only when it is free. `requestModuleBoxNearest` searches outward for the closest free position. The workspace can also add, delete, clone and disconnect modules, and clear itself.
- **The cable container (`WireContainer`).** Every port has a stack of cables, with the most recently added cable on top. One cable at a time may be dragged, and it is held in `activeWire`. The model covers `setActiveWire`, `commitActiveWire`, `getTopWire`, `removeTopWire` and `removeAllWires`, plus `Port::create` and the cable widget's `updateWire`.
- **Switch parameters.** `ToggleSwitch` cycles through its positions and wraps from the last to the first. `MomentarySwitch` starts at its default value, goes to its maximum when pressed and to its minimum when released.

Modules:

- `Grid` (`grid.dfy`): the grid constants (15 px per column, 380 px per row) and boxes in grid units. It also holds the conversion to and from pixel rectangles and the collision rule.
- `Seqs` (`seqs.dfy`): ordered child lists, and removal from them.
- `Wires` (`wires.dfy`): ports, cable widgets, the cable stack of a port as a function of the container's children, and the `WireContainer` class.
- `Rack` (`rack.dfy`): module widgets, the search order of the nearest-position search and the `RackWidget` class. It ends with three example scenarios.
- `Switches` (`switches.dfy`): the switch classes, and what repeated presses of a toggle switch do.

Rules the header leaves open, fixed here:

- **Boxes.** A module's box is given in grid units: a column, a row and a width in columns (HP). Every module is exactly one 380 px row tall. A pixel rectangle corresponds to a box exactly when it lies on the grid (`Grid.FromPixels`).
- **Collision.** Two boxes collide when they are in the same row and their column ranges intersect in more than an edge. This is exactly strict intersection of their pixel rectangles (`Grid.OverlapsIffPixelsIntersect`). A box of width 0 has an empty pixel rectangle but still collides with a box whose column range contains its column strictly inside, as its zero-width rectangle does.
- **Legal position.** A position is legal when it is at column ≥ 0 and row ≥ 0 and it collides with no *other* module.
- **Search order.** The nearest-position search visits rings of Chebyshev distance 0, 1, …, 400 around the requested box. Within a ring it scans the rows from top to bottom, and each row from left to right. The first legal position wins. Outside ring 400 the search gives up and the module keeps its box.
- **Cable stack.** The stack of port `p` is the container's cables that have both ends plugged and one of them at `p`, in the order they were added. The top of the stack is the last of them. The cable being dragged has a free end, so it is on no stack.
- **Removing the cables at a port.** `removeAllWires(p)` first makes the dragged cable stop hovering `p`, so that committing it later cannot plug it into `p`.
- **Replacing the dragged cable.** When `setActiveWire` replaces a different dragged cable, the old cable is discarded, that is, removed from the children.

## Model

| member | source | states |
|---|---|---|
| Grid.FromPixels | include/app.hpp:47-50 | the box read from a pixel rectangle covers exactly that rectangle |
| Grid.PixelsRoundTrip | include/app.hpp:47-50 | every box is a whole number of 15 px columns wide and 380 px tall, and reading it back from its pixels gives the same box |
| Grid.FromPixelsExactly | include/app.hpp:47-50 | a pixel rectangle is read as a box exactly when it is the pixels of some box |
| Grid.OverlapsIffPixelsIntersect | include/app.hpp:170-171 | the grid collision rule holds exactly when the two boxes' pixel rectangles intersect strictly (touching edges do not collide) |
| Seqs.RemoveAt | include/app.hpp:167-168 | in a list without repetitions, removing an element cuts it out at its one position, so the others keep their order |
| Seqs.RemoveMembers | include/app.hpp:167-168 | removal drops exactly the removed element and keeps every other one |
| Seqs.RemoveDistinct | include/app.hpp:167-168 | removal keeps a child list free of repetitions |
| Wires.Port.Create | include/app.hpp:453-460 | the new port has the requested direction, module and id |
| Wires.WireWidget.constructor | include/app.hpp:109-117 | a new cable has no plugged or hovered ends and owns no engine wire |
| Wires.WireWidget.UpdateWire | include/app.hpp:119-120 | afterwards the cable owns an engine wire exactly when both ends are plugged, and its ends are unchanged |
| Wires.StackMembers | include/app.hpp:137-138 | the stack of `p` holds exactly the cables that have both ends plugged and one end at `p` |
| Wires.KeepMembers | include/app.hpp:136 | the cables left after removing those at some ports are exactly the cables with no end at any of those ports |
| Wires.KeepStep | include/app.hpp:76-79 | removing the cables at ports one after the other is the same as removing the cables at all of them |
| Wires.KeepDistinct | include/app.hpp:136 | removing cables keeps the child list free of repetitions |
| Wires.KeepEmptiesStacks | include/app.hpp:136-138 | after the cables at a port are removed, that port's stack is empty |
| Wires.EmptiesAllStacks | include/app.hpp:76-79 | after the cables at a list of ports are removed, every one of those ports has an empty stack |
| Wires.StackOfRemove | include/app.hpp:135 | deleting one cable deletes it from every port's stack, and the rest of each stack keeps its order |
| Wires.PushTop | include/app.hpp:137-138 | appending a cable connected to `p` pushes it on top of `p`'s stack; appending any other cable leaves that stack as it was |
| Wires.LastIsTop | include/app.hpp:133-138 | a plugged cable that is the last child is the top of the stacks of both of its ports |
| Wires.PopStack | include/app.hpp:135-138 | deleting the top cable of `p` leaves `p`'s stack without its top and the rest in order |
| Wires.PopTopStack | include/app.hpp:135-138 | after removeTopWire(p) the stack of `p` is the old stack without its top, so the new top is the previous cable (an empty stack stays empty) |
| Wires.PopTopRemovesOne | include/app.hpp:135 | removeTopWire(p) cuts exactly the top cable out at its one position, and every other cable keeps its place |
| Wires.TopOnList | include/app.hpp:137-138 | the top of a non-empty stack is one of the container's cables and is connected to the port |
| Wires.SetActiveKeepsChildrenDistinct | include/app.hpp:130-132 | setActiveWire never makes a cable a child twice, always leaves `w` a child, makes a cable that was not a child the last one, and removes a replaced dragged cable |
| Wires.SetActiveIdempotent | include/app.hpp:131-132 | calling setActiveWire(w) a second time leaves the child list as it is, so no cable is added twice |
| Wires.WireContainer.constructor | include/app.hpp:129-130 | the container starts with no cables and no dragged cable |
| Wires.WireContainer.SetActiveWire | include/app.hpp:130-132 | `w` becomes the dragged cable; it becomes the last child unless it is a child already, and a different previously dragged cable is removed; the invariant is kept |
| Wires.WireContainer.CommitActiveWire | include/app.hpp:133-134 | the dragged cable's free end takes the hovered port; if both ends are then plugged, it owns an engine wire and stays a child, otherwise it is removed; afterwards nothing is dragged |
| Wires.WireContainer.GetTopWire | include/app.hpp:137-138 | the result is null exactly when the stack of `p` is empty, and otherwise it is the stack's last cable, the one added most recently |
| Wires.WireContainer.RemoveTopWire | include/app.hpp:135 | the children become the old children without the top cable of `p` (unchanged if the stack is empty); the dragged cable and the invariant are kept |
| Wires.WireContainer.CablesAwayFrom | include/app.hpp:136 | the result is the children with no end at `p`, in their order |
| Wires.WireContainer.RemoveAllWires | include/app.hpp:136-138 | the children become those with no end at `p`, in their order, and `p`'s stack is empty; a dragged cable at `p` is dropped, and a dragged cable hovering `p` stops hovering it |
| Wires.WireContainer.RemoveWiresAt | include/app.hpp:76-79 | the children become those with no end at any of the ports, and every one of those ports has an empty stack; a dragged cable stays dragged exactly when it has no end at them, and then stops hovering them |
| Rack.ModuleWidget.constructor | include/app.hpp:53-63 | a new module widget of the given model has no ports and a box of the given width |
| Rack.ModuleWidget.AddInput | include/app.hpp:66 | the port becomes the last input; outputs and box are unchanged |
| Rack.ModuleWidget.AddOutput | include/app.hpp:67 | the port becomes the last output; inputs and box are unchanged |
| Rack.BeforeTotal | include/app.hpp:172-173 | the search order is a strict total order on the candidate positions |
| Rack.RackWidget.NearestUnique | include/app.hpp:172-173 | at most one position is the nearest free one, so the search is deterministic |
| Rack.RackWidget.constructor | include/app.hpp:142-151 | a new rack has no modules and an empty cable container |
| Rack.RackWidget.Collides | include/app.hpp:170-171 | the result is true exactly when the box collides with a module other than `m` |
| Rack.RackWidget.RequestModuleBox | include/app.hpp:170-171 | returns true exactly when the box is legal for `m`; then `m` takes exactly that box, otherwise it keeps its box; nothing but `m`'s box changes; no overlap is preserved |
| Rack.RackWidget.FindNearest | include/app.hpp:172-173 | returns the first legal position in the search order, or none when no candidate within the radius is legal |
| Rack.RackWidget.RequestModuleBoxNearest | include/app.hpp:172-173 | on success `m`'s box is the first legal position in the search order, and a legal request is taken as it is; on failure no candidate is legal and `m` keeps its box; nothing but `m`'s box changes; no overlap is preserved |
| Rack.RackWidget.AddModule | include/app.hpp:166 | the module becomes the topmost one; a rack without overlap stays without overlap when the new module's box is legal |
| Rack.RackWidget.DeleteModule | include/app.hpp:167-168 | the module is no longer in the rack, the others keep their order, and exactly one widget goes when it was present |
| Rack.RackWidget.DisconnectModule | include/app.hpp:76-79 | every cable at one of the module's ports is removed, the rest keep their order, and each of those ports has an empty stack; a dragged cable stays dragged exactly when it has no end at them, and then stops hovering them |
| Rack.RackWidget.Clear | include/app.hpp:154-155 | afterwards there are no modules, no cables and no dragged cable |
| Rack.RackWidget.CloneModule | include/app.hpp:169 | a fresh widget of the same model and width is added on top; when a position is found, it is the first legal one in the search order around the original's box, and no overlap is preserved |
| Switches.ToggleNext | include/app.hpp:301-308 | a value in range stays in range, and with more than one position each press changes the value |
| Switches.PressesInRange | include/app.hpp:301-308 | a value in range stays in range however often the switch is pressed |
| Switches.PressesCycle | include/app.hpp:302-303 | pressing once per position brings the switch back to where it started (the range [0, 3] has four modes) |
| Switches.PressesReachEveryMode | include/app.hpp:302-303 | from any position, every position is reached within one cycle of presses |
| Switches.ToggleSwitch.Create | include/app.hpp:230-238 | the switch has the given parameter id and limits and starts at the default value |
| Switches.ToggleSwitch.OnDragStart | include/app.hpp:301-308 | a value at or above the maximum becomes the minimum, and otherwise the value goes up by one; the value stays in range |
| Switches.MomentarySwitch.Create | include/app.hpp:230-238 | the switch has the given parameter id and limits and starts at the default value |
| Switches.MomentarySwitch.OnDragStart | include/app.hpp:315-319 | pressing sets the value to the maximum |
| Switches.MomentarySwitch.OnDragEnd | include/app.hpp:320-322 | releasing sets the value to the minimum |
| Switches.MomentarySwitch.Randomize | include/app.hpp:313-314 | randomizing leaves the value unchanged |

## Left out

- Rendering is left out: every `draw` method, panels, SVGs, framebuffers and rails. It is the external renderer.
- Event dispatch is left out, except the switch drag handlers. That covers mouse, hover-key, zoom and drag handlers, including the port handlers that start and drop a cable. Their bodies are not part of this model.
- JSON persistence (`toJson`/`fromJson`), patch files and the open and save dialogs are left out. They are file I/O with no visible document layout.
- The float unit conversions, knob dragging, light colours and other device and plugin widgets are left out. So are the global scene objects.
- The engine (`Module`, `Wire`) is not part of this model. A cable "owns an engine wire" is modelled only as the `plugged` flag.
- Widget construction (`Widget::create`), the position argument of the `create` functions and the `_delete`/`create` hooks of module widgets are left out.
- `ModuleWidget::reset` and `randomize` and `RackWidget::reset` are left out. They act on parameters and on the template patch, and neither is modelled.
- Rack.RackWidget.CloneModule: does not copy parameter values, because parameters are not modelled. When no position within the search radius is free, the copy is still added, at the original's box.
- Rack.RackWidget.DeleteModule: removes the module only and does not detach its cables. The header comment promises only removal and the hand-back of ownership; detaching is `Rack.RackWidget.DisconnectModule`, which a caller runs first.
- Rack.RackWidget.RequestModuleBoxNearest: the search order and the radius of 400 rings are a fixed choice of this model. The header only promises "the closest non-colliding position".
- Rack.RackWidget.RequestModuleBox: boxes are whole grid cells. A pixel request that is not grid-aligned is outside the model, and `Grid.FromPixels` rejects it.
- Wires.WireContainer.CommitActiveWire: does not check that the two ends belong to different modules. It also does not model the engine's rule that an input takes one cable. The free end simply takes the hovered port.
- Wires.WireContainer.RemoveWiresAt: says nothing about the hovered ends of a dragged cable that it removes, because the removed widget is destroyed.
- Wires.WireContainer.SetActiveWire: requires the new cable to have a free end and well-typed ends. A cable that is plugged at both ends is never dragged.
- Switches.MomentarySwitch.OnDragStart: does not fire the `onAction` event that a press sends, because event dispatch is not modelled.
- Switches.ToggleSwitch.OnDragStart: values are integers, as in the header's example of the modes 0 to 3. `setValue` is modelled as plain assignment, because its clamping and change events are not part of this model.
