/** Whole sessions of a graphics client: drawing, presenting, the calls that
    bypass damage tracking, surfaces and modes coming and going. */
module ScreenSession {
  import opened FrameDamage

  /** What the client last presented, while the screen still shows that. */
  datatype Shown = Nothing | Shown(id: nat, content: Surface)

  datatype World = World(screen: Screen, surfaces: map<nat, Surface>, shown: Shown)

  datatype Action =
    | Draw(id: nat, surface: Surface)
    | Import(id: nat, surface: Surface)
    | Release(id: nat)
    | PresentSurface(id: nat, rects: seq<Rect>)
    | PresentPixels(pixels: Surface)
    | PresentRegion(pixels: Surface, rect: Rect)
    | SetMode(mode: Mode)

  /** A surface is released: damage remembered for it is forgotten. */
  function Released(s: Screen, id: nat): Screen {
    if s.previous.Only? && s.previous.surface == id then s.(previous := Everything) else s
  }

  /** A whole frame is shown past the damage tracking. */
  ghost predicate Copied(s: Screen, s': Screen, pixels: Surface) {
    && s' == s.(front := s'.front, back := if s.double then s.front else s.back, previous := Everything)
    && Painted(if s.double then s.back else s.front, s'.front, pixels, s.mode, [Whole(s.mode)])
  }

  /** A rectangle is copied straight to the visible buffer. */
  ghost predicate CopiedRegion(s: Screen, s': Screen, pixels: Surface, rect: Rect) {
    && s' == s.(front := s'.front, previous := Everything) && Painted(s.front, s'.front, pixels, s.mode, [rect])
  }

  /** A new mode: buffers with anything in them, one or two, and no remembered damage. */
  predicate NewMode(s': Screen, mode: Mode) {
    s'.mode == mode && GoodScreen(s') && s'.previous.Everything?
  }

  /** The rules for the client. A partial present declares all that changed since its last present, and
      the first present after anything else touched the screen is a whole one. */
  ghost predicate Allowed(w: World, a: Action) {
    match a
    case Draw(id, surface) => id in w.surfaces && IsSurface(surface, w.screen.mode)
    case Import(id, surface) => id !in w.surfaces && IsSurface(surface, w.screen.mode)
    case Release(id) => id in w.surfaces
    case PresentSurface(id, rects) =>
      id in w.surfaces && (rects != [] ==>
          w.shown.Shown? && w.shown.id == id && Declared(w.screen.mode, w.shown.content, w.surfaces[id], rects))
    case PresentPixels(pixels) => IsSurface(pixels, w.screen.mode)
    case PresentRegion(pixels, rect) => IsSurface(pixels, w.screen.mode) && ValidRect(w.screen.mode, rect)
    case SetMode(mode) => GoodMode(mode) && w.surfaces == map[]
  }

  ghost predicate Step(w: World, a: Action, w': World) {
    match a
    case Draw(id, surface) => w' == w.(surfaces := w.surfaces[id := surface])
    case Import(id, surface) => w' == w.(surfaces := w.surfaces[id := surface])
    case Release(id) =>
      w' == World(Released(w.screen, id), w.surfaces - {id}, if w.shown.Shown? && w.shown.id == id then Nothing
          else w.shown)
    case PresentSurface(id, rects) =>
      id in w.surfaces && Presented(w.screen, w'.screen, id, w.surfaces[id], rects)
        && w' == World(w'.screen, w.surfaces, Shown(id, w.surfaces[id]))
    case PresentPixels(pixels) => Copied(w.screen, w'.screen, pixels) && w' == World(w'.screen, w.surfaces, Nothing)
    case PresentRegion(pixels, rect) => CopiedRegion(w.screen, w'.screen, pixels, rect)
      && w' == World(w'.screen, w.surfaces, Nothing)
    case SetMode(mode) => NewMode(w'.screen, mode) && w' == World(w'.screen, map[], Nothing)
  }

  ghost predicate Inv(w: World) {
    && GoodScreen(w.screen)
    && (if w.shown.Shown? then Same(w.screen.front, w.shown.content, w.screen.mode) && Synced(w.screen)
                               && (w.screen.previous.Only? ==> w.screen.previous.surface == w.shown.id)
        else w.screen.previous.Everything?)
  }

  lemma PresentKeeps(w: World, id: nat, rects: seq<Rect>, w': World)
    requires Inv(w) && Allowed(w, PresentSurface(id, rects)) && Step(w, PresentSurface(id, rects), w')
    ensures Inv(w') && Same(w'.screen.front, w.surfaces[id], w.screen.mode)
  {
    if rects == [] {
      WholePresent(w.screen, w'.screen, id, w.surfaces[id]);
    } else {
      DamageUnion(w.screen, w'.screen, id, w.shown.content, w.surfaces[id], rects);
    }
  }

  lemma StepKeeps(w: World, a: Action, w': World)
    requires Inv(w) && Allowed(w, a) && Step(w, a, w')
    ensures Inv(w')
  {
    if a.PresentSurface? { PresentKeeps(w, a.id, a.rects, w'); }
  }

  ghost predicate Run(worlds: seq<World>, actions: seq<Action>) {
    && |worlds| == |actions| + 1
    && forall i :: 0 <= i < |actions| ==> Allowed(worlds[i], actions[i]) && Step(worlds[i], actions[i], worlds[i + 1])
  }

  lemma {:induction false} RunKeeps(worlds: seq<World>, actions: seq<Action>, n: nat)
    requires Run(worlds, actions) && Inv(worlds[0]) && n <= |actions|
    ensures Inv(worlds[n])
  {
    if n > 0 {
      RunKeeps(worlds, actions, n - 1);
      StepKeeps(worlds[n - 1], actions[n - 1], worlds[n]);
    }
  }

  /** In every session, from any screen without remembered damage, each present of a surface leaves the
      visible buffer showing exactly that surface, whatever rectangles were given. */
  lemma ScreenShowsSurface(worlds: seq<World>, actions: seq<Action>, n: nat)
    requires Run(worlds, actions) && GoodScreen(worlds[0].screen) && worlds[0].screen.previous.Everything?
    requires worlds[0].shown.Nothing?
    requires n < |actions| && actions[n].PresentSurface?
    ensures actions[n].id in worlds[n].surfaces
    ensures Same(worlds[n + 1].screen.front, worlds[n].surfaces[actions[n].id], worlds[n].screen.mode)
  {
    RunKeeps(worlds, actions, n);
    PresentKeeps(worlds[n], actions[n].id, actions[n].rects, worlds[n + 1]);
  }
}
