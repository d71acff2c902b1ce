/** Little-endian records: fixed-width fields packed one after another. */
module Packing {

  type Byte = b: int | 0 <= b < 256

  function Pow256(w: nat): nat {
    if w == 0 then 1 else 256 * Pow256(w - 1)
  }

  function LittleEndian(w: nat, v: nat): (r: seq<Byte>)
    ensures |r| == w
    decreases w, v
  {
    if w == 0 then [] else [v % 256] + LittleEndian(w - 1, v / 256)
  }

  function Number(bytes: seq<Byte>): nat {
    if bytes == [] then 0 else bytes[0] + 256 * Number(bytes[1..])
  }

  lemma {:induction false} NumberReadsBack(w: nat, v: nat)
    requires v < Pow256(w)
    ensures Number(LittleEndian(w, v)) == v
  {
    if w > 0 {
      NumberReadsBack(w - 1, v / 256);
      assert LittleEndian(w, v)[1..] == LittleEndian(w - 1, v / 256);
    }
  }

  function Width(widths: seq<nat>): nat {
    if widths == [] then 0 else widths[0] + Width(widths[1..])
  }

  /** What packing checks first: a value that its field cannot hold is an error. */
  predicate Fits(widths: seq<nat>, values: seq<nat>)
    requires |widths| == |values|
  {
    forall k :: 0 <= k < |values| ==> values[k] < Pow256(widths[k])
  }

  function Pack(widths: seq<nat>, values: seq<nat>): seq<Byte>
    requires |widths| == |values|
    decreases |widths|, |values|
  {
    if widths == [] then [] else LittleEndian(widths[0], values[0]) + Pack(widths[1..], values[1..])
  }

  /** The fields of a record, as many as the bytes are enough for. */
  function Unpack(widths: seq<nat>, bytes: seq<Byte>): (r: seq<nat>)
    ensures |r| <= |widths|
    decreases |widths|, |bytes|
  {
    if widths == [] || |bytes| < widths[0] then []
    else [Number(bytes[..widths[0]])] + Unpack(widths[1..], bytes[widths[0]..])
  }

  lemma {:induction false} PackSize(widths: seq<nat>, values: seq<nat>)
    requires |widths| == |values|
    ensures |Pack(widths, values)| == Width(widths)
    decreases |widths|
  {
    if widths != [] { PackSize(widths[1..], values[1..]); }
  }

  lemma {:induction false} RecordReadsBack(widths: seq<nat>, values: seq<nat>)
    requires |widths| == |values| && Fits(widths, values)
    ensures Unpack(widths, Pack(widths, values)) == values
    decreases |widths|
  {
    if widths != [] {
      NumberReadsBack(widths[0], values[0]);
      assert forall k :: 0 <= k < |values| - 1 ==> values[1..][k] == values[k + 1] && widths[1..][k] == widths[k + 1];
      RecordReadsBack(widths[1..], values[1..]);
      var head, tail := LittleEndian(widths[0], values[0]), Pack(widths[1..], values[1..]);
      assert (head + tail)[..widths[0]] == head && (head + tail)[widths[0]..] == tail;
      assert values == [values[0]] + values[1..];
    }
  }
}
