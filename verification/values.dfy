/** The scalar types the entities carry. The code only copies dates and
    doubles, so they are opaque wrappers that the model never inspects. */
module Values {

  /** Every entity key is a string. */
  type Id = string

  /** A .NET `DateTime`, identified by its tick count. */
  datatype DateTime = DateTime(ticks: int)

  /** `default(DateTime)`, i.e. `DateTime.MinValue`: what a non-nullable
      date field holds when nothing is assigned to it. */
  const MinDateTime: DateTime := DateTime(0)

  /** A .NET `double`, identified by its bit pattern. */
  datatype Double = Double(bits: bv64)

  /** The keys of a list of records, in order: LINQ's `Select(x => x.Id)`. */
  function Ids<T>(rows: seq<T>, key: T -> Id): (ids: seq<Id>)
    ensures |ids| == |rows|
    ensures forall i :: 0 <= i < |rows| ==> ids[i] == key(rows[i])
  {
    if rows == [] then [] else [key(rows[0])] + Ids(rows[1..], key)
  }
}
