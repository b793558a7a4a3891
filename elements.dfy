/** The five kinds of square in the maze and the characters that draw them. */
module Elements {

  datatype Element = Player | Obstacle | End | Void | Travelled
  {
    /** The characters that stand for this kind in the map text. */
    function Representation(): (r: seq<char>)
      ensures 1 <= |r| <= 3
    {
      match this
      case Player => ['P']
      case Obstacle => ['|', '-', '+']
      case End => ['F']
      case Void => [' ']
      case Travelled => ['*']
    }
  }

  /** No character stands for two different kinds. */
  lemma RepresentationsDisjoint(e1: Element, e2: Element, ch: char)
    requires e1 != e2
    ensures !(ch in e1.Representation() && ch in e2.Representation())
  {
  }
}
