/**
 * The debug-UI objects of DebugUiControl.cs, DebugUiPanel.cs and DebugUiManager.cs: controls
 * with ids drawn from a counter and a doubly linked list of children, the panel's flow layout,
 * and the manager's id-sorted list of instances searched to deliver messages.
 *
 * A panel is a control in the source (DebugUiPanel derives from DebugUiColoredControl, which
 * derives from DebugUiControl); here a `Panel` holds the `Control` it is.
 */
module DebugUi {
  import opened Wrappers
  import opened Geometry
  import opened VirtualScreen
  import opened JsonText
  import opened FlowLayout
  import Renderer

  /** `instanceCount`: the static counter every new control takes its id from. */
  class IdCounter {
    var count: int

    constructor()
      ensures count == 0
    {
      count := 0;
    }

    /** `instanceCount++`: the current count, and the counter moves on by one. */
    method Next() returns (id: int)
      modifies this
      ensures id == old(count) && count == old(count) + 1
    {
      id := count;
      count := count + 1;
    }
  }

  class Control {
    const id: int
    var hasOnClick: bool
    var enabled: bool
    var eventEnabled: bool
    var draggable: bool
    var globalX: real
    var globalY: real
    var localX: real
    var localY: real
    var width: real
    var height: real
    var borderWidth: real
    var parent: Control?
    var prevSibling: Control?
    var nextSibling: Control?
    var firstChild: Control?
    var lastChild: Control?
    /** The children in sibling order, from `firstChild` along `nextSibling`. */
    ghost var children: seq<Control>

    /**
     * The child list is a well-formed doubly linked list: `firstChild` and `lastChild` are its
     * ends, `prevSibling` and `nextSibling` agree with the order and are null at the ends, every
     * child has this control as parent, and no control appears twice.
     */
    ghost predicate Linked()
      reads this`children, this`firstChild, this`lastChild, children`parent, children`prevSibling, children`nextSibling
    {
      this !in children &&
      (forall i, j :: 0 <= i < j < |children| ==> children[i] != children[j]) &&
      (if |children| == 0 then firstChild == null && lastChild == null
       else firstChild == children[0] && lastChild == children[|children| - 1]) &&
      (forall i :: 0 <= i < |children| ==> children[i].parent == this) &&
      (|children| > 0 ==> children[0].prevSibling == null && children[|children| - 1].nextSibling == null) &&
      (forall i :: 0 <= i < |children| - 1 ==> children[i].nextSibling == children[i + 1] && children[i + 1].prevSibling == children[i])
    }

    /**
     * `DebugUiControl(manager)`: the next id from the counter, enabled, no children; with a
     * manager, registered at the end of its instance list, which stays sequential when the
     * manager counts with the same counter.
     */
    constructor(counter: IdCounter, manager: Manager?)
      modifies counter, manager
      ensures id == old(counter.count) && counter.count == old(counter.count) + 1
      ensures enabled && !eventEnabled && !hasOnClick && children == [] && Linked()
      ensures parent == null && prevSibling == null && nextSibling == null
      ensures localX == 0.0 && localY == 0.0 && width == 0.0 && height == 0.0 && borderWidth == 0.0
      ensures manager != null ==> manager.instances == old(manager.instances) + [this]
      ensures manager != null && manager.counter == counter && old(manager.Sequential()) ==> manager.Sequential()
    {
      var n := counter.Next();
      id := n;
      enabled := true;
      hasOnClick := false;
      eventEnabled := false;
      draggable := false;
      globalX, globalY, localX, localY := 0.0, 0.0, 0.0, 0.0;
      width, height, borderWidth := 0.0, 0.0, 0.0;
      parent, prevSibling, nextSibling, firstChild, lastChild := null, null, null, null, null;
      children := [];
      new;
      if manager != null {
        manager.OnCreate(this);
      }
    }

    /** The private constructor `Root` uses: id 0 without drawing on the counter, enabled, no children. */
    constructor Root()
      ensures id == 0 && enabled && children == [] && Linked() && parent == null
    {
      id := 0;
      enabled := true;
      hasOnClick := false;
      eventEnabled := false;
      draggable := false;
      globalX, globalY, localX, localY := 0.0, 0.0, 0.0, 0.0;
      width, height, borderWidth := 0.0, 0.0, 0.0;
      parent, prevSibling, nextSibling, firstChild, lastChild := null, null, null, null, null;
      children := [];
    }

    /** `AddChild`: the control becomes the last child, with this control as parent. */
    method AddChild(control: Control)
      requires Linked() && control != this && control !in children
      modifies this`firstChild, this`lastChild, this`children, control`parent, control`prevSibling, control`nextSibling, children`nextSibling
      ensures children == old(children) + [control] && control.parent == this && Linked()
    {
      control.parent := this;
      LinkToTail(control);
    }

    /** `LinkToTail`: the control is linked after the last child (or as the only one). */
    method LinkToTail(control: Control)
      requires Linked() && control != this && control !in children && control.parent == this
      modifies this`firstChild, this`lastChild, this`children, control`prevSibling, control`nextSibling, children`nextSibling
      ensures children == old(children) + [control] && Linked()
      ensures control.prevSibling == old(lastChild) && control.nextSibling == null
    {
      control.nextSibling := null;
      if firstChild == null {
        firstChild := control;
        lastChild := control;
        control.prevSibling := null;
      } else {
        lastChild.nextSibling := control;
        control.prevSibling := lastChild;
        lastChild := control;
      }
      children := children + [control];
    }

    /**
     * A child's `Dispose` as far as this control's list is concerned: the child loses its parent,
     * its siblings and its own children.
     */
    method DisposeLinks()
      modifies this`parent, this`prevSibling, this`nextSibling, this`firstChild, this`lastChild, this`children
      ensures parent == null && prevSibling == null && nextSibling == null && firstChild == null && lastChild == null
      ensures children == [] && Linked()
    {
      parent := null;
      prevSibling := null;
      nextSibling := null;
      firstChild := null;
      lastChild := null;
      children := [];
    }

    /** `RemoveAllChildren`: every child is disposed in sibling order, and the list is left empty. */
    method RemoveAllChildren()
      requires Linked()
      modifies this`firstChild, this`lastChild, this`children
      modifies children`parent, children`prevSibling, children`nextSibling, children`firstChild, children`lastChild, children`children
      ensures firstChild == null && lastChild == null && children == [] && Linked()
      ensures forall c :: c in old(children) ==> c.parent == null && c.prevSibling == null && c.nextSibling == null
      ensures forall c :: c in old(children) ==> c.firstChild == null && c.lastChild == null && c.children == []
    {
      var node := firstChild;
      ghost var k := 0;
      while node != null
        invariant 0 <= k <= |old(children)|
        invariant k < |old(children)| ==> node == old(children)[k]
        invariant k == |old(children)| ==> node == null
        invariant forall j :: k <= j < |old(children)| - 1 ==> old(children)[j].nextSibling == old(children)[j + 1]
        invariant k < |old(children)| ==> old(children)[|old(children)| - 1].nextSibling == null
        invariant forall j :: 0 <= j < k ==> old(children)[j].parent == null && old(children)[j].prevSibling == null && old(children)[j].nextSibling == null
        invariant forall j :: 0 <= j < k ==> old(children)[j].firstChild == null && old(children)[j].lastChild == null && old(children)[j].children == []
        decreases |old(children)| - k
      {
        var next := node.nextSibling;
        node.DisposeLinks();
        node := next;
        k := k + 1;
      }
      assert k == |old(children)|;
      firstChild := null;
      lastChild := null;
      children := [];
    }

    /** `AdjustSize`: the box grows to the farthest right and bottom edge of any child, plus the border on both sides. */
    method AdjustSize()
      requires Linked()
      modifies this`width, this`height
      ensures width == MaxRight(children) + 2.0 * borderWidth
      ensures height == MaxBottom(children) + 2.0 * borderWidth
    {
      var maxX := 0.0;
      var maxY := 0.0;
      var control := firstChild;
      ghost var k := 0;
      while control != null
        invariant 0 <= k <= |children|
        invariant k < |children| ==> control == children[k]
        invariant k == |children| ==> control == null
        invariant maxX == MaxRight(children[..k]) && maxY == MaxBottom(children[..k])
        decreases |children| - k
      {
        var x := control.localX + control.width;
        var y := control.localY + control.height;
        maxX := Max(maxX, x);
        maxY := Max(maxY, y);
        assert children[..k + 1][..k] == children[..k];
        control := control.nextSibling;
        k := k + 1;
      }
      assert children[..k] == children;
      width := maxX + borderWidth * 2.0;
      height := maxY + borderWidth * 2.0;
    }

    /** `ReceiveMessage`: a "click" invokes `OnClick` when one is set; other messages do nothing. */
    method ReceiveMessage(message: string, data: string) returns (invokesOnClick: bool)
      ensures invokesOnClick <==> message == "click" && hasOnClick
    {
      invokesOnClick := false;
      if message == "click" {
        if hasOnClick {
          invokesOnClick := true;
        }
      }
    }
  }

  /** The farthest right edge (`LocalX + Width`) of some controls, never below zero. */
  ghost function MaxRight(cs: seq<Control>): real
    reads cs`localX, cs`width
  {
    if |cs| == 0 then 0.0 else Max(MaxRight(cs[..|cs| - 1]), cs[|cs| - 1].localX + cs[|cs| - 1].width)
  }

  /** The farthest bottom edge (`LocalY + Height`) of some controls, never below zero. */
  ghost function MaxBottom(cs: seq<Control>): real
    reads cs`localY, cs`height
  {
    if |cs| == 0 then 0.0 else Max(MaxBottom(cs[..|cs| - 1]), cs[|cs| - 1].localY + cs[|cs| - 1].height)
  }

  /**
   * `MaxRight` is the maximum of zero and the children's right edges: no edge lies beyond it,
   * and it is zero or one of the edges.
   */
  lemma {:induction false} MaxRightIsMax(cs: seq<Control>)
    ensures MaxRight(cs) >= 0.0
    ensures forall k :: 0 <= k < |cs| ==> cs[k].localX + cs[k].width <= MaxRight(cs)
    ensures MaxRight(cs) == 0.0 || exists k :: 0 <= k < |cs| && MaxRight(cs) == cs[k].localX + cs[k].width
  {
    if |cs| > 0 {
      var init := cs[..|cs| - 1];
      MaxRightIsMax(init);
      assert forall k :: 0 <= k < |init| ==> init[k] == cs[k];
    }
  }

  /** The same for the bottom edges. */
  lemma {:induction false} MaxBottomIsMax(cs: seq<Control>)
    ensures MaxBottom(cs) >= 0.0
    ensures forall k :: 0 <= k < |cs| ==> cs[k].localY + cs[k].height <= MaxBottom(cs)
    ensures MaxBottom(cs) == 0.0 || exists k :: 0 <= k < |cs| && MaxBottom(cs) == cs[k].localY + cs[k].height
  {
    if |cs| > 0 {
      var init := cs[..|cs| - 1];
      MaxBottomIsMax(init);
      assert forall k :: 0 <= k < |init| ==> init[k] == cs[k];
    }
  }

  // Panel

  class Panel {
    /** The panel as a control. */
    const control: Control
    var lineSpacing: real
    var nextX: real
    var nextY: real
    var currentLineHeight: real
    var backgroundColor: Color32
    var borderColor: Color32
    /** The border width the panel was created with: where the first line starts. */
    ghost const origin: real
    /** The placements and line breaks so far, with the sizes and spacings they used. */
    ghost var steps: seq<FlowStep>

    /** The cursor is where the flow layout of the steps so far puts it. */
    ghost predicate Valid()
      reads this
    {
      Run(Start(origin), steps) == Cursor(nextX, nextY, currentLineHeight)
    }

    /**
     * `DebugUiPanel(width, height, borderWidth, manager)`: the size and border given, grey
     * background, white border, and the first line starting inside the border at the top left.
     */
    constructor(counter: IdCounter, width: real, height: real, borderWidth: real, manager: Manager?)
      modifies counter, manager
      ensures Valid() && steps == [] && origin == borderWidth && fresh(control) && control.children == [] && control.Linked()
      ensures control.id == old(counter.count) && counter.count == old(counter.count) + 1
      ensures control.width == width && control.height == height && control.borderWidth == borderWidth
      ensures backgroundColor == Color32(100, 100, 100, 100) && borderColor == Color32(255, 255, 255, 255)
      ensures nextX == borderWidth && nextY == borderWidth && currentLineHeight == 0.0 && lineSpacing == 0.0
      ensures manager != null ==> manager.instances == old(manager.instances) + [control]
      ensures manager != null && manager.counter == counter && old(manager.Sequential()) ==> manager.Sequential()
    {
      var c := new Control(counter, manager);
      c.borderWidth := borderWidth;
      c.width := width;
      c.height := height;
      control := c;
      lineSpacing := 0.0;
      backgroundColor := Color32(100, 100, 100, 100);
      borderColor := Color32(255, 255, 255, 255);
      nextX := borderWidth;
      nextY := nextX;
      currentLineHeight := 0.0;
      origin := borderWidth;
      steps := [];
    }

    /**
     * `AddChildAuto`: the control is placed at the cursor, where the flow layout puts the next
     * control, and added as the last child; the cursor then moves past it.
     */
    method AddChildAuto(c: Control)
      requires Valid() && control.Linked() && c != control && c !in control.children
      modifies this`nextX, this`currentLineHeight, this`steps, c`localX, c`localY
      modifies control`firstChild, control`lastChild, control`children, c`parent, c`prevSibling, c`nextSibling, control.children`nextSibling
      ensures c.localX == Run(Start(origin), old(steps)).x && c.localY == Run(Start(origin), old(steps)).y
      ensures c.parent == control && control.children == old(control.children) + [c] && control.Linked()
      ensures steps == old(steps) + [Place(c.width, c.height)] && Valid()
      ensures nextX == old(nextX) + c.width && nextY == old(nextY) && currentLineHeight == Max(old(currentLineHeight), c.height)
    {
      c.localX := nextX;
      c.localY := nextY;
      assert c.localX == Run(Start(origin), steps).x && c.localY == Run(Start(origin), steps).y;
      control.AddChild(c);
      MovePast(c.width, c.height);
    }

    /** The cursor update of `AddChildAuto`: right by the width, the line at least as tall as the height. */
    method MovePast(width: real, height: real)
      requires Valid()
      modifies this`nextX, this`currentLineHeight, this`steps
      ensures steps == old(steps) + [Place(width, height)] && Valid()
      ensures nextX == old(nextX) + width && currentLineHeight == Max(old(currentLineHeight), height)
    {
      nextX := nextX + width;
      currentLineHeight := Max(currentLineHeight, height);
      steps := steps + [Place(width, height)];
      assert steps[..|steps| - 1] == old(steps);
    }

    /** `BreakLine`: the next line starts at the left border, below the current line and the line spacing. */
    method BreakLine()
      requires Valid()
      modifies this`nextX, this`nextY, this`currentLineHeight, this`steps
      ensures steps == old(steps) + [Break(control.borderWidth, lineSpacing)] && Valid()
      ensures nextX == control.borderWidth && nextY == old(nextY) + old(currentLineHeight) + lineSpacing && currentLineHeight == 0.0
    {
      nextX := control.borderWidth;
      nextY := nextY + currentLineHeight + lineSpacing;
      currentLineHeight := 0.0;
      steps := steps + [Break(control.borderWidth, lineSpacing)];
      assert steps[..|steps| - 1] == old(steps);
    }

    /**
     * The width and height `ToJson` reports: the box without the border on both sides, which is
     * the children's extent once `AdjustSize` has sized the box.
     */
    function ReportedSize(): (size: Vec2)
      reads control`width, control`height, control`borderWidth, control`children, control.children`localX
      reads control.children`width, control.children`localY, control.children`height
      ensures control.width == MaxRight(control.children) + 2.0 * control.borderWidth ==> size.x == MaxRight(control.children)
      ensures control.height == MaxBottom(control.children) + 2.0 * control.borderWidth ==> size.y == MaxBottom(control.children)
    {
      Vec2(control.width - control.borderWidth * 2.0, control.height - control.borderWidth * 2.0)
    }
  }

  /**
   * After `AdjustSize`, the size a panel reports covers every child: no child's right or bottom
   * edge lies beyond it.
   */
  lemma ReportedSizeCoversChildren(p: Panel)
    requires p.control.width == MaxRight(p.control.children) + 2.0 * p.control.borderWidth
    requires p.control.height == MaxBottom(p.control.children) + 2.0 * p.control.borderWidth
    ensures var cs := p.control.children;
      forall k :: 0 <= k < |cs| ==> cs[k].localX + cs[k].width <= p.ReportedSize().x && cs[k].localY + cs[k].height <= p.ReportedSize().y
  {
    MaxRightIsMax(p.control.children);
    MaxBottomIsMax(p.control.children);
  }

  // Manager

  /** The ids of some controls, in order. */
  function Ids(cs: seq<Control>): seq<int>
  {
    seq(|cs|, k requires 0 <= k < |cs| => cs[k].id)
  }

  /** Strictly increasing: how `instances` is kept (`Manager.Sequential`), since ids are handed out in creation order. */
  predicate Increasing(ids: seq<int>)
  {
    forall i, j :: 0 <= i < j < |ids| ==> ids[i] < ids[j]
  }

  /** `List.Remove`: the first occurrence of x taken out, the rest in order; nothing when x is absent. */
  function RemoveFirst<T(==)>(s: seq<T>, x: T): seq<T>
  {
    if |s| == 0 then [] else if s[0] == x then s[1..] else [s[0]] + RemoveFirst(s[1..], x)
  }

  /** Removing takes out exactly one occurrence when there is one, and nothing otherwise. */
  lemma {:induction false} RemoveFirstCount<T>(s: seq<T>, x: T)
    ensures multiset(RemoveFirst(s, x)) == multiset(s) - multiset{x}
  {
    if |s| > 0 {
      RemoveFirstCount(s[1..], x);
      assert s == [s[0]] + s[1..];
    }
  }

  /** The ids after the first of an increasing list are increasing and all larger than it. */
  lemma IncreasingTail(s: seq<Control>)
    requires |s| > 0 && Increasing(Ids(s))
    ensures Increasing(Ids(s[1..])) && forall c :: c in s[1..] ==> s[0].id < c.id
  {
    assert forall k :: 0 <= k < |s| - 1 ==> Ids(s[1..])[k] == Ids(s)[k + 1];
    forall c | c in s[1..] ensures s[0].id < c.id {
      var k :| 0 <= k < |s[1..]| && s[1..][k] == c;
      assert Ids(s)[0] < Ids(s)[k + 1];
    }
  }

  /** A control with a smaller id than every control of an increasing list keeps it increasing in front. */
  lemma IncreasingCons(c: Control, r: seq<Control>)
    requires Increasing(Ids(r)) && forall d :: d in r ==> c.id < d.id
    ensures Increasing(Ids([c] + r))
  {
    var s := [c] + r;
    forall i, j | 0 <= i < j < |s| ensures Ids(s)[i] < Ids(s)[j] {
      assert s[j] == r[j - 1];
      if i > 0 {
        assert s[i] == r[i - 1];
        assert Ids(r)[i - 1] < Ids(r)[j - 1];
      }
    }
  }

  /** Removing keeps the order of the rest, so an increasing list of ids stays increasing. */
  lemma {:induction false} RemoveFirstIncreasing(s: seq<Control>, x: Control)
    requires Increasing(Ids(s))
    ensures Increasing(Ids(RemoveFirst(s, x)))
  {
    if |s| > 0 {
      IncreasingTail(s);
      if s[0] != x {
        var r := RemoveFirst(s[1..], x);
        RemoveFirstIncreasing(s[1..], x);
        RemoveFirstCount(s[1..], x);
        forall d | d in r ensures s[0].id < d.id {
          assert d in multiset(r);
        }
        IncreasingCons(s[0], r);
      }
    }
  }

  /** A message from the browser: the control's id, the event, and its data. */
  datatype Message = Message(id: int, eventType: string, data: string)

  /** What `SendMessage` did: no control with the id (a warning is logged), or delivered to one. */
  datatype Delivery = NotFound | Delivered(control: Control, invokesOnClick: bool)

  /** One step of `GetControl`'s loop as written: the probe found the id, narrowed the range, or the range was empty. */
  datatype Probe = Found(index: nat) | Narrowed(first: int, last: int) | Exhausted

  /** `(first + last) / 2` with C#'s division, which truncates toward zero. */
  function MidPoint(first: int, last: int): (m: int)
    requires first <= last
    ensures first <= m <= last
  {
    var s := first + last;
    if s >= 0 then s / 2 else -((-s) / 2)
  }

  /**
   * `GetControl`'s loop body as written: on a larger id in the middle it sets `first = i - 1`
   * and leaves `last` alone.
   */
  function ProbeAsWritten(ids: seq<int>, id: int, first: int, last: int): (p: Probe)
    requires -1 <= first && last == |ids| - 1 && (first >= 0 || |ids| > 0)
    ensures p.Found? ==> p.index < |ids| && ids[p.index] == id
    ensures p.Narrowed? ==> -1 <= p.first && p.last == last && |ids| > 0
    ensures p.Exhausted? <==> first > last
  {
    if first > last then Exhausted
    else
      var i := MidPoint(first, last);
      if ids[i] == id then Found(i)
      else if ids[i] < id then Narrowed(i + 1, last)
      else Narrowed(i - 1, last)
  }

  /**
   * `GetControl` as written, run for at most `fuel` steps: `Some(Some(i))` when it returns
   * instance i, `Some(None)` when it returns null, `None` when it has not finished.
   */
  function GetControlAsWritten(ids: seq<int>, id: int, first: int, fuel: nat): (r: Option<Option<nat>>)
    requires -1 <= first && (first >= 0 || |ids| > 0)
    ensures r.Some? && r.value.Some? ==> r.value.value < |ids| && ids[r.value.value] == id
    decreases fuel
  {
    if fuel == 0 then None
    else match ProbeAsWritten(ids, id, first, |ids| - 1)
      case Found(i) => Some(Some(i))
      case Exhausted => Some(None)
      case Narrowed(f, _) => GetControlAsWritten(ids, id, f, fuel - 1)
  }

  /**
   * Looking up id 0 among the ids 0, 1, 2 as written never finishes, however many steps it is
   * given: the middle id 1 is larger, so `first` is set to 1 - 1 = 0 and the range stays [0, 2].
   */
  lemma {:induction false} GetControlAsWrittenLoops(fuel: nat)
    ensures GetControlAsWritten([0, 1, 2], 0, 0, fuel) == None
  {
    assert ProbeAsWritten([0, 1, 2], 0, 0, 2) == Narrowed(0, 2);
    if fuel > 0 {
      GetControlAsWrittenLoops(fuel - 1);
    }
  }

  class Manager {
    var instances: seq<Control>
    const root: Control
    const renderer: Renderer.PrimitiveRenderer2D
    /** The static `instanceCount` the controls take their ids from. */
    ghost const counter: IdCounter

    /**
     * The instances are sorted by id and every id was handed out before the counter's current
     * value, so the next control created is newer than all of them.
     */
    ghost predicate Sequential()
      reads this, counter
    {
      Increasing(Ids(instances)) && forall c :: c in instances ==> c.id < counter.count
    }

    /** `Initialize`: no instances yet, and an empty root; an empty list is sequential. */
    constructor(renderer: Renderer.PrimitiveRenderer2D, ghost counter: IdCounter)
      ensures instances == [] && fresh(root) && root.children == [] && root.Linked() && this.renderer == renderer
      ensures this.counter == counter && Sequential()
    {
      instances := [];
      root := new Control.Root();
      this.renderer := renderer;
      this.counter := counter;
    }

    /**
     * `OnCreate`: the control is appended. Appended in creation order, the ids stay increasing:
     * a control newer than every instance keeps the list sorted.
     */
    method OnCreate(control: Control)
      modifies this`instances
      ensures instances == old(instances) + [control]
      ensures Increasing(Ids(old(instances))) && (forall c :: c in old(instances) ==> c.id < control.id) ==> Increasing(Ids(instances))
    {
      instances := instances + [control];
      assert forall k :: 0 <= k < |instances| - 1 ==> Ids(instances)[k] == Ids(old(instances))[k] && instances[k] in old(instances);
    }

    /** `OnDispose`: the first occurrence of the control is removed; the list stays sequential. */
    method OnDispose(control: Control)
      modifies this`instances
      ensures instances == RemoveFirst(old(instances), control)
      ensures multiset(instances) == multiset(old(instances)) - multiset{control}
      ensures Increasing(Ids(old(instances))) ==> Increasing(Ids(instances))
      ensures old(Sequential()) ==> Sequential()
    {
      RemoveFirstCount(instances, control);
      forall c | c in RemoveFirst(instances, control) ensures c in instances {
        assert c in multiset(RemoveFirst(instances, control));
      }
      if Increasing(Ids(instances)) {
        RemoveFirstIncreasing(instances, control);
      }
      instances := RemoveFirst(instances, control);
    }

    /** `Add`: the control becomes the root's last child. */
    method Add(control: Control)
      requires root.Linked() && control != root && control !in root.children
      modifies root`firstChild, root`lastChild, root`children, control`parent, control`prevSibling, control`nextSibling, root.children`nextSibling
      ensures root.children == old(root.children) + [control] && control.parent == root && root.Linked()
    {
      root.AddChild(control);
    }

    /**
     * `GetControl` with the search range narrowed on both sides (`last = i - 1` on a larger id):
     * a control it returns has the id, and on an increasing list it returns null only when no
     * instance has the id.
     */
    method GetControl(id: int) returns (control: Control?)
      ensures control != null ==> control in instances && control.id == id
      ensures control == null && Increasing(Ids(instances)) ==> forall c :: c in instances ==> c.id != id
    {
      var ids := Ids(instances);
      var first := 0;
      var last := |instances| - 1;
      while first <= last
        invariant 0 <= first && last < |instances|
        invariant Increasing(ids) ==> forall k :: 0 <= k < |instances| && (k < first || last < k) ==> ids[k] != id
        decreases last - first
      {
        var i := (first + last) / 2;
        var controlId := instances[i].id;
        assert ids[i] == controlId;
        if controlId == id {
          return instances[i];
        } else if controlId < id {
          assert Increasing(ids) ==> forall k :: 0 <= k < i ==> ids[k] < ids[i];
          first := i + 1;
        } else {
          assert Increasing(ids) ==> forall k :: i < k < |ids| ==> ids[i] < ids[k];
          last := i - 1;
        }
      }
      forall c | c in instances ensures Increasing(ids) ==> c.id != id {
        var k :| 0 <= k < |instances| && instances[k] == c;
        assert ids[k] == c.id;
      }
      return null;
    }

    /**
     * `SendMessage`: the message goes to the instance with its id, where a "click" invokes
     * `OnClick` when one is set; on an increasing list it is not found only when no instance
     * has the id.
     */
    method SendMessage(message: Message) returns (delivery: Delivery)
      ensures delivery.Delivered? ==> delivery.control in instances && delivery.control.id == message.id
      ensures delivery.Delivered? ==> (delivery.invokesOnClick <==> message.eventType == "click" && delivery.control.hasOnClick)
      ensures delivery.NotFound? && Increasing(Ids(instances)) ==> forall c :: c in instances ==> c.id != message.id
    {
      var control := GetControl(message.id);
      if control != null {
        var clicked := control.ReceiveMessage(message.eventType, message.data);
        delivery := Delivered(control, clicked);
      } else {
        delivery := NotFound;
      }
    }

    /** `ConvertCoordFromUnityScreen`: a Unity screen position in the renderer's virtual coordinates. */
    method ConvertCoordFromUnityScreen(position: Vec2) returns (converted: Vec2)
      ensures converted == ScreenToVirtual(position, renderer.reference)
    {
      var x := position.x * renderer.reference.toVirtualScale;
      var y := renderer.reference.height - position.y * renderer.reference.toVirtualScale;
      converted := Vec2(x, y);
    }
  }
}
