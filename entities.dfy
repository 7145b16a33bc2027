/** The records the game stores: stars (src/star.rs), links and the draft line (the property
    sets of src/line.rs), the hover cursor, and the heterogeneous node list the generator
    builds, in which stars and links share one index space. */
module Entities {

  /** An optional value, for the source's `Option` results. */
  datatype Option<T> = None | Some(value: T)

  /** Link styles (src/line.rs): the dashed style is only drawn for the draft line. */
  const STYLE_DASHED: nat := 0
  const STYLE_DIM: nat := 1
  const STYLE_BRIGHT: nat := 2

  /** A star at world pixel coordinates; `bright` stars can still be linked. */
  datatype Star = Star(x: int, y: int, bright: bool)

  /** An undirected edge between two indices (star indices in a sky, node indices in the
      generator's node list), with a display style. */
  datatype Link = Link(startIdx: nat, endIdx: nat, style: nat)

  /** The uncommitted line that follows the pointer while a link is being drafted. */
  datatype DraftLine = DraftLine(startIdx: nat, endX: int, endY: int, visible: bool)

  /** The hover indicator drawn around a bright star. */
  datatype Cursor = Cursor(x: int, y: int, visible: bool)

  /** One entry of the generator's node list: either a star or a link between two
      earlier entries. */
  datatype Node = StarNode(star: Star) | LinkNode(link: Link)

  /** The draft line's initial properties: anchored at index 0, at the origin, hidden. */
  const INITIAL_DRAFT_LINE: DraftLine := DraftLine(0, 0, 0, false)

  /** The cursor's initial state: at the origin, hidden. */
  const INITIAL_CURSOR: Cursor := Cursor(0, 0, false)

  /** Squared Euclidean distance between two points. */
  function DistSq(x1: int, y1: int, x2: int, y2: int): nat {
    (x1 - x2) * (x1 - x2) + (y1 - y2) * (y1 - y2)
  }

  /** The squared distance does not depend on the order of the two points. */
  lemma DistSqSymmetric(x1: int, y1: int, x2: int, y2: int)
    ensures DistSq(x1, y1, x2, y2) == DistSq(x2, y2, x1, y1)
  {
    NegatedSquare(x1 - x2);
    NegatedSquare(y1 - y2);
  }

  lemma NegatedSquare(a: int)
    ensures (-a) * (-a) == a * a
  {
  }
}
