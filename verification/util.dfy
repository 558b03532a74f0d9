/**
 * Util::arrayWrap (src/Ignite/Container/Util.php): null becomes the empty
 * array, an array stays as it is, any other value becomes a one-element
 * list. PHP's integer key 0 of that list is the key "0" here.
 */
module ContainerUtil {
  import opened OrderedMaps
  import opened Parameters

  /** arrayWrap */
  function ArrayWrap(v: Value): (r: OrderedMap<Value>)
    ensures v.Null? <==> r == [] && !v.Arr?
    ensures v.Arr? ==> r == v.entries
    ensures !v.Null? && !v.Arr? ==> |r| == 1 && r[0].1 == v
  {
    match v
    case Null => []
    case Arr(es) => es
    case _ => [("0", v)]
  }

  /** Wrapping what arrayWrap returned changes nothing. */
  lemma ArrayWrapIdempotent(v: Value)
    ensures ArrayWrap(Arr(ArrayWrap(v))) == ArrayWrap(v)
  {
  }

  /** Every value arrayWrap returns is the value itself or one of the entries of the array it was given. */
  lemma ArrayWrapMembers(v: Value)
    ensures forall i :: 0 <= i < |ArrayWrap(v)| ==>
      ArrayWrap(v)[i].1 == v || (v.Arr? && ArrayWrap(v)[i] in v.entries)
  {
  }
}
