/**
 * The stereocentre oracle the factory consults. `Stereocenters` itself is not
 * part of this model: its classification and its answers before and after the
 * symmetry check are data, and only the state the factory changes (whether
 * symmetry has been checked) is modelled.
 */
module StereoCenters {

  /** `Stereocenters.Type`: the shape of a candidate centre. */
  datatype CenterType = NoCenter | Bicoordinate | Tricoordinate | Tetracoordinate

  class Stereocenters {
    /** `elementType(v)`. */
    const types: seq<CenterType>
    /** `isStereocenter(v)` before the symmetry check. */
    const candidate: seq<bool>
    /** `isStereocenter(v)` after the symmetry check. */
    const verified: seq<bool>
    /** `stereocenterType(v) != Stereocenter.Non`. */
    const possible: seq<bool>
    /** `isSymmetryChecked()`. */
    var checked: bool

    ghost predicate Valid() {
      |candidate| == |types| && |verified| == |types| && |possible| == |types|
    }

    constructor(types: seq<CenterType>, candidate: seq<bool>, verified: seq<bool>, possible: seq<bool>)
      requires |candidate| == |types| && |verified| == |types| && |possible| == |types|
      ensures Valid() && !checked
      ensures this.types == types && this.candidate == candidate
      ensures this.verified == verified && this.possible == possible
    {
      this.types := types;
      this.candidate := candidate;
      this.verified := verified;
      this.possible := possible;
      checked := false;
    }

    function IsStereocenter(v: int): bool
      requires Valid() && 0 <= v < |types|
      reads this
    {
      if checked then verified[v] else candidate[v]
    }

    /** `checkSymmetry()`: from now on `isStereocenter` gives the verified answers. */
    method CheckSymmetry()
      modifies this
      ensures checked
    {
      checked := true;
    }
  }
}
