/** The flag masking step of inspect_script/derive_SEFD.py (line 118):
    every flagged visibility becomes missing, in place. The DATA and FLAG
    columns are taken in numpy's row-major flattening; the payload type `T`
    stands for the complex visibility, which the step never looks at. */
module Masking {
  import opened Common

  /** The masked contents as a value: an entry is missing exactly when it was
      flagged or was already missing, and every unflagged entry keeps its value. */
  function Masked<T>(data: seq<Sample<T>>, flag: seq<bool>): (r: seq<Sample<T>>)
    requires |data| == |flag|
    ensures |r| == |data|
    ensures forall k :: 0 <= k < |r| ==> (r[k] == NoData <==> flag[k] || data[k] == NoData)
    ensures forall k :: 0 <= k < |r| && !flag[k] ==> r[k] == data[k]
  {
    seq(|data|, k requires 0 <= k < |data| => if flag[k] then NoData else data[k])
  }

  /** Masking twice with the same flags is masking once. */
  lemma MaskIdempotent<T>(data: seq<Sample<T>>, flag: seq<bool>)
    requires |data| == |flag|
    ensures Masked(Masked(data, flag), flag) == Masked(data, flag)
  {
  }

  /** numpy's boolean-mask assignment: the mask must have the data's shape. */
  method MaskFlagged<T>(data: array<Sample<T>>, flag: array<bool>)
    requires data.Length == flag.Length
    modifies data
    ensures data[..] == Masked(old(data[..]), flag[..])
  {
    for k := 0 to data.Length
      invariant forall j :: 0 <= j < k ==> data[j] == if flag[j] then NoData else old(data[j])
      invariant forall j :: k <= j < data.Length ==> data[j] == old(data[j])
    {
      if flag[k] {
        data[k] := NoData;
      }
    }
  }
}
