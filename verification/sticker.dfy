/** The sticker screen: an ordered list of overlay icons (later ones drawn
    on top) with at most one selected, edited by add, click, drag, rotate
    and delete, and the selection gate on the "Print" button. Fresh ids,
    the canvas size and the drop coordinates come in as parameters. */
module Sticker {
  import opened Wrappers
  import opened Seqs

  datatype Position = Position(x: real, y: real)

  /** An overlay icon. `rotation` counts quarter-pi steps: icons start at 0
      and the rotate button is the only way to turn them. */
  datatype Icon = Icon(
    id: string,
    src: string,
    position: Position,
    rotation: int,
    scale: real,
    width: real,
    height: real)

  /** Pixel size of the canvas, set from the background photo. */
  datatype Canvas = Canvas(width: nat, height: nat)

  datatype Scene = Scene(icons: seq<Icon>, selected: Option<string>)

  const Empty: Scene := Scene([], None)

  /** Side length of a newly added icon. */
  const IconSize: real := 100.0

  /** Some icon in `icons` carries `id`. */
  predicate HasId(icons: seq<Icon>, id: string)
  {
    exists i :: 0 <= i < |icons| && icons[i].id == id
  }

  /** `handleAddIcon`: nothing happens without a canvas. */
  function AddIcon(s: Scene, canvas: Option<Canvas>, src: string, freshId: string): (r: Scene)
    ensures canvas.None? ==> r == s
    ensures canvas.Some? ==>
              && |r.icons| == |s.icons| + 1
              && r.icons[..|s.icons|] == s.icons
              && r.selected == Some(freshId)
              && var n := r.icons[|s.icons|];
                 && n.id == freshId && n.src == src
                 && n.position == Position(canvas.value.width as real / 2.0, canvas.value.height as real / 2.0)
                 && n.rotation == 0 && n.scale == 1.0
                 && n.width == IconSize && n.height == IconSize
  {
    match canvas
    case None => s
    case Some(c) =>
      var icon := Icon(freshId, src, Position(c.width as real / 2.0, c.height as real / 2.0),
                       0, 1.0, IconSize, IconSize);
      Scene(s.icons + [icon], Some(freshId))
  }

  /** `handleIconClick`: clicking the selected icon deselects, any other selects it. */
  function IconClick(s: Scene, id: string): (r: Scene)
    ensures r.icons == s.icons
    ensures r.selected.None? <==> s.selected == Some(id)
    ensures r.selected.Some? ==> r.selected.value == id
  {
    s.(selected := if s.selected == Some(id) then None else Some(id))
  }

  /** JavaScript's `icons.map(icon => icon.id === id ? f(icon) : icon)`. */
  function UpdateWhere(icons: seq<Icon>, id: string, f: Icon -> Icon): (r: seq<Icon>)
    ensures |r| == |icons|
    ensures forall i :: 0 <= i < |icons| ==>
              r[i] == if icons[i].id == id then f(icons[i]) else icons[i]
  {
    if |icons| == 0 then [] else
      [if icons[0].id == id then f(icons[0]) else icons[0]] + UpdateWhere(icons[1..], id, f)
  }

  /** `handleIconDrag`: moves every icon with that id, changing nothing else. */
  function IconDrag(s: Scene, id: string, p: Position): (r: Scene)
    ensures r.selected == s.selected
    ensures |r.icons| == |s.icons|
    ensures forall i :: 0 <= i < |s.icons| ==>
              r.icons[i] == if s.icons[i].id == id then s.icons[i].(position := p) else s.icons[i]
  {
    s.(icons := UpdateWhere(s.icons, id, (icon: Icon) => icon.(position := p)))
  }

  /** `handleIconRotate`: sets the rotation of every icon with that id. */
  function IconRotate(s: Scene, id: string, rotation: int): (r: Scene)
    ensures r.selected == s.selected
    ensures |r.icons| == |s.icons|
    ensures forall i :: 0 <= i < |s.icons| ==>
              r.icons[i] == if s.icons[i].id == id then s.icons[i].(rotation := rotation) else s.icons[i]
  {
    s.(icons := UpdateWhere(s.icons, id, (icon: Icon) => icon.(rotation := rotation)))
  }

  /** JavaScript's `icons.filter(icon => icon.id !== id)`. */
  function WithoutId(icons: seq<Icon>, id: string): (r: seq<Icon>)
    ensures |r| <= |icons|
    ensures forall i :: 0 <= i < |r| ==> r[i].id != id && r[i] in icons
    ensures forall i :: 0 <= i < |icons| && icons[i].id != id ==> icons[i] in r
    ensures !HasId(icons, id) ==> r == icons
  {
    Keep(icons, (icon: Icon) => icon.id != id)
  }

  /** `handleIconDelete`: removes every icon with that id and always clears the selection. */
  function IconDelete(s: Scene, id: string): (r: Scene)
    ensures r.selected.None?
    ensures !HasId(r.icons, id)
    ensures forall i :: 0 <= i < |s.icons| && s.icons[i].id != id ==> s.icons[i] in r.icons
    ensures forall i :: 0 <= i < |r.icons| ==> r.icons[i] in s.icons
  {
    Scene(WithoutId(s.icons, id), None)
  }

  /** Deletion keeps the surviving icons in their drawing order. */
  lemma WithoutIdConcat(a: seq<Icon>, b: seq<Icon>, id: string)
    ensures WithoutId(a + b, id) == WithoutId(a, id) + WithoutId(b, id)
  {
    KeepConcat(a, b, (icon: Icon) => icon.id != id);
  }

  /** The drag clamp `min(max(v, half), limit - half)`. */
  function Clamp(v: real, half: real, limit: real): (r: real)
    ensures r <= limit - half
    ensures half <= limit - half ==> half <= r
    ensures half <= v <= limit - half ==> r == v
    ensures v >= limit - half ==> r == limit - half
    ensures half <= limit - half && v <= half ==> r == half
  {
    var low := if v > half then v else half;
    if low < limit - half then low else limit - half
  }

  lemma ClampIdempotent(v: real, half: real, limit: real)
    ensures Clamp(Clamp(v, half, limit), half, limit) == Clamp(v, half, limit)
  {
  }

  /** Drop of the icon at `k` at `(x, y)` canvas pixels: each axis is
      clamped by half the icon's scaled extent. */
  function DragEnd(s: Scene, k: nat, canvas: Canvas, x: real, y: real): (r: Scene)
    requires k < |s.icons|
    ensures |r.icons| == |s.icons| && r.selected == s.selected
    ensures var icon := s.icons[k];
            var halfW := icon.width * icon.scale / 2.0;
            var halfH := icon.height * icon.scale / 2.0;
            && r.icons[k].position.x <= canvas.width as real - halfW
            && r.icons[k].position.y <= canvas.height as real - halfH
            && (halfW <= canvas.width as real - halfW ==> halfW <= r.icons[k].position.x)
            && (halfH <= canvas.height as real - halfH ==> halfH <= r.icons[k].position.y)
    ensures r.icons[k] == s.icons[k].(position := r.icons[k].position)
    ensures var icon := s.icons[k];
            var halfW := icon.width * icon.scale / 2.0;
            var halfH := icon.height * icon.scale / 2.0;
            && (halfW <= x <= canvas.width as real - halfW ==> r.icons[k].position.x == x)
            && (halfH <= y <= canvas.height as real - halfH ==> r.icons[k].position.y == y)
    ensures forall i :: 0 <= i < |s.icons| && s.icons[i].id != s.icons[k].id ==> r.icons[i] == s.icons[i]
  {
    var icon := s.icons[k];
    var halfW := icon.width * icon.scale / 2.0;
    var halfH := icon.height * icon.scale / 2.0;
    IconDrag(s, icon.id, Position(Clamp(x, halfW, canvas.width as real), Clamp(y, halfH, canvas.height as real)))
  }

  /** The rotate button of the icon at `k`: a quarter-pi turn further, no normalisation. */
  function RotateButton(s: Scene, k: nat): (r: Scene)
    requires k < |s.icons|
    ensures |r.icons| == |s.icons| && r.selected == s.selected
    ensures r.icons[k].rotation == s.icons[k].rotation + 1
    ensures r.icons[k] == s.icons[k].(rotation := r.icons[k].rotation)
    ensures forall i :: 0 <= i < |s.icons| && s.icons[i].id != s.icons[k].id ==> r.icons[i] == s.icons[i]
  {
    IconRotate(s, s.icons[k].id, s.icons[k].rotation + 1)
  }

  /** JavaScript truthiness of `selectedIcon`: null and "" are false. */
  predicate Truthy(o: Option<string>)
  {
    o.Some? && o.value != ""
  }

  datatype PrintOutcome = PrintOutcome(scene: Scene, exported: bool)

  /** `printFrameWithSticker`: with an icon selected the first press only
      deselects (so the selection ring is not exported); otherwise the
      canvas goes to export. */
  function PrintPressed(s: Scene): (r: PrintOutcome)
    ensures r.exported <==> !Truthy(s.selected)
    ensures r.scene.icons == s.icons
    ensures r.exported ==> r.scene == s
    ensures !r.exported ==> r.scene.selected.None?
  {
    if Truthy(s.selected) then PrintOutcome(s.(selected := None), false)
    else PrintOutcome(s, true)
  }

  /** The rotate and delete buttons are drawn only on the selected icon. */
  predicate ControlsShown(s: Scene, k: nat)
  {
    k < |s.icons| && s.selected == Some(s.icons[k].id)
  }

  /** Everything that can happen on the screen. Icons are addressed by their
      position in the list, as the rendered elements are. */
  datatype Event =
    | Add(canvas: Option<Canvas>, src: string, freshId: string)
    | Click(index: nat)
    | Drop(index: nat, dropCanvas: Canvas, x: real, y: real)
    | Rotate(index: nat)
    | Delete(index: nat)
    | Print

  function Apply(s: Scene, e: Event): Scene
  {
    match e
    case Add(c, src, id) => AddIcon(s, c, src, id)
    case Click(k) => if k < |s.icons| then IconClick(s, s.icons[k].id) else s
    case Drop(k, c, x, y) => if k < |s.icons| then DragEnd(s, k, c, x, y) else s
    case Rotate(k) => if ControlsShown(s, k) then RotateButton(s, k) else s
    case Delete(k) => if ControlsShown(s, k) then IconDelete(s, s.icons[k].id) else s
    case Print => PrintPressed(s).scene
  }

  function Run(s: Scene, events: seq<Event>): Scene
    decreases |events|
  {
    if |events| == 0 then s else Run(Apply(s, events[0]), events[1..])
  }

  /** The selection, when there is one, names an icon in the scene. */
  ghost predicate SelectionValid(s: Scene)
  {
    s.selected.Some? ==> HasId(s.icons, s.selected.value)
  }

  lemma ApplyPreservesSelection(s: Scene, e: Event)
    requires SelectionValid(s)
    ensures SelectionValid(Apply(s, e))
  {
  }

  /** No sequence of events leaves the selection pointing at a missing icon. */
  lemma {:induction false} RunPreservesSelection(s: Scene, events: seq<Event>)
    requires SelectionValid(s)
    ensures SelectionValid(Run(s, events))
    decreases |events|
  {
    if |events| > 0 {
      ApplyPreservesSelection(s, events[0]);
      RunPreservesSelection(Apply(s, events[0]), events[1..]);
    }
  }

  /** Clicking the same icon twice restores the selection when it started
      empty or on that icon; from another icon it ends empty. */
  lemma ClickTwice(s: Scene, id: string)
    ensures s.selected.None? || s.selected == Some(id) ==> IconClick(IconClick(s, id), id) == s
    ensures s.selected.Some? && s.selected != Some(id) ==>
              IconClick(IconClick(s, id), id) == s.(selected := None)
  {
  }

  /** Add an icon, rotate it twice (pi/4 each) and delete it: the scene is
      empty again, and before the delete the icon had turned by pi/2. */
  lemma AddRotateDelete(c: Canvas, src: string, id: string)
    ensures var r := Run(Empty, [Add(Some(c), src, id), Rotate(0), Rotate(0)]);
            |r.icons| == 1 && r.icons[0].rotation == 2 && r.selected == Some(id)
    ensures Run(Empty, [Add(Some(c), src, id), Rotate(0), Rotate(0), Delete(0)]) == Empty
  {
    var s1 := AddIcon(Empty, Some(c), src, id);
    var s2 := RotateButton(s1, 0);
    var s3 := RotateButton(s2, 0);
    var s4 := IconDelete(s3, id);
    var evs := [Add(Some(c), src, id), Rotate(0), Rotate(0), Delete(0)];
    assert Run(s3, evs[3..]) == s4 by {
      assert evs[3..][1..] == [];
    }
    assert Run(s2, evs[2..]) == s4 by {
      assert evs[2..][1..] == evs[3..];
    }
    assert Run(s1, evs[1..]) == s4 by {
      assert evs[1..][1..] == evs[2..];
    }
    assert WithoutId(s3.icons, id) == [];
    var three := evs[..3];
    assert Run(s2, three[2..]) == s3 by {
      assert three[2..][1..] == [];
    }
    assert Run(s1, three[1..]) == s3 by {
      assert three[1..][1..] == three[2..];
    }
    assert three == [Add(Some(c), src, id), Rotate(0), Rotate(0)];
  }
}
