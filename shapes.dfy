/**
 * The drawing entities (domain/entity/Shape.kt, domain/entity/ToolState.kt
 * and their copies under model/), as immutable values.
 */
module Shapes {
  import opened Geometry

  datatype Shape =
    | Line(a: Vec2, b: Vec2)
    | Circle(center: Vec2, r: real)
    | Arc(center: Vec2, r: real, startRad: real, sweepRad: real)
    | Point(p: Vec2)
    | Path(points: seq<Vec2>)

  type LineShape = s: Shape | s.Line? witness Line(Zero, Zero)

  type CircleShape = s: Shape | s.Circle? witness Circle(Zero, 0.0)

  datatype ToolKind = Ruler | SetSquare45 | SetSquare3060 | Protractor | Compass

  datatype CompassMode = CircleMode | ArcMode

  datatype ToolTransform = ToolTransform(position: Vec2, rotationRad: real, scale: real)

  datatype ToolState = ToolState(kind: ToolKind, transform: ToolTransform, compassMode: CompassMode)

  datatype Viewport = Viewport(pan: Vec2, zoom: real)

  datatype DrawingState = DrawingState(
    shapes: seq<Shape>,
    tool: ToolState,
    viewport: Viewport,
    snapping: bool,
    gridSpacingMm: real,
    snapRadiusPx: real)

  /** The default-argument values of `DrawingState()`. */
  const InitialState: DrawingState :=
    DrawingState([], ToolState(Ruler, ToolTransform(Zero, 0.0, 1.0), CircleMode),
                 Viewport(Zero, 1.0), true, 5.0, 16.0)
}
