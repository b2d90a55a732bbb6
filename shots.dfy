/** The fixed, ordered list of nine exterior shots the guided capture walks through. */
module Shots {

  datatype ShotSpec = ShotSpec(id: string, title: string, instruction: string)

  /** The walk order; the id of each shot is also the name of its file input and upload field. */
  const Sequence: seq<ShotSpec> := [
    ShotSpec("front", "Front of Home", "Stand back to capture the entire front of your home"),
    ShotSpec("frontRightCorner", "Front Right Corner", "Position yourself at an angle to capture the front right corner"),
    ShotSpec("rightSide", "Right Side", "Move to capture the right side of your home"),
    ShotSpec("rearRightCorner", "Rear Right Corner", "Position yourself at an angle to capture the rear right corner"),
    ShotSpec("rear", "Rear of Home", "Stand back to capture the entire rear of your home"),
    ShotSpec("rearLeftCorner", "Rear Left Corner", "Position yourself at an angle to capture the rear left corner"),
    ShotSpec("leftSide", "Left Side", "Move to capture the left side of your home"),
    ShotSpec("leftFrontCorner", "Left Front Corner", "Position yourself at an angle to capture the left front corner"),
    ShotSpec("gutterSwatch", "Gutter Color Swatch", "Hold the color swatch up to your existing gutters or show your preferred color")
  ]

  /** The ids in walk order. */
  function Ids(): (ids: seq<string>)
    ensures |ids| == |Sequence| == 9
    ensures forall i :: 0 <= i < |ids| ==> ids[i] == Sequence[i].id
  {
    seq(|Sequence|, i requires 0 <= i < |Sequence| => Sequence[i].id)
  }

  ghost function IdSet(): set<string> {
    set i | 0 <= i < |Sequence| :: Sequence[i].id
  }

  /** No two shots share an id, so the per-id store holds one file per shot. */
  lemma IdsDistinct()
    ensures forall i, j :: 0 <= i < j < |Sequence| ==> Sequence[i].id != Sequence[j].id
  {
    forall i, j | 0 <= i < j < |Sequence| ensures Sequence[i].id != Sequence[j].id {
      // The ids differ in length, except rearRightCorner and leftFrontCorner, which differ in their first letter.
      assert |Sequence[i].id| != |Sequence[j].id| || Sequence[i].id[0] != Sequence[j].id[0];
    }
  }

  lemma IdSetSize()
    ensures |IdSet()| == 9
  {
    IdsDistinct();
    var ids := Ids();
    IdSetOfDistinct(ids, 9);
    assert IdSet() == set i | 0 <= i < 9 :: ids[i];
  }

  lemma {:induction false} IdSetOfDistinct(ids: seq<string>, k: nat)
    requires k <= |ids|
    requires forall i, j :: 0 <= i < j < |ids| ==> ids[i] != ids[j]
    ensures |set i | 0 <= i < k :: ids[i]| == k
  {
    if k > 0 {
      IdSetOfDistinct(ids, k - 1);
      var prev := set i | 0 <= i < k - 1 :: ids[i];
      assert (set i | 0 <= i < k :: ids[i]) == prev + {ids[k - 1]};
      assert ids[k - 1] !in prev;
    }
  }
}
