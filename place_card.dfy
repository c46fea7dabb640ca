/**
 * Display rules of a place card (app/components/itinerary/PlaceCard.tsx):
 * the price symbol and the per-type visit-duration label. The recommendation
 * list (VibeSelector) uses the same price rule.
 */
module PlaceCard {
  import opened Common
  import opened PlaceData

  /**
   * `level ? "$".repeat(level) : "$$"`. A missing level and 0 (falsy) show the
   * default "$$". `repeat` throws on a negative count; that case is `None`.
   */
  function PriceToSymbol(level: Option<int>): (r: Option<string>)
    ensures level == None || level == Some(0) ==> r == Some("$$")
    ensures level.Some? && level.value > 0 ==>
      r.Some? && |r.value| == level.value && forall i :: 0 <= i < |r.value| ==> r.value[i] == '$'
    ensures level.Some? && level.value < 0 ==> r == None
  {
    match level
    case None => Some("$$")
    case Some(k) => if k == 0 then Some("$$") else if k < 0 then None else Some(Repeat('$', k))
  }

  /** The visit-duration label: restaurants take 90 minutes, every other type 60. */
  function DurationLabel(kind: PlaceType): (text: string)
    ensures text == "90 min" <==> kind == Restaurant
    ensures text == "60 min" <==> kind != Restaurant
  {
    if kind == Restaurant then "90 min" else "60 min"
  }

  /** "$$" is shown both by default and for price level 2, so the two cannot be told apart. */
  lemma DefaultLooksLikeLevelTwo()
    ensures PriceToSymbol(None) == PriceToSymbol(Some(2))
  {
    assert Repeat('$', 2) == "$$";
  }

  /** Positive levels give distinct symbols, and none of them but level 2 shows as the default. */
  lemma PositiveLevelsAreDistinct(k: int, m: int)
    requires k > 0 && m > 0 && k != m
    ensures PriceToSymbol(Some(k)) != PriceToSymbol(Some(m))
    ensures k != 2 ==> PriceToSymbol(Some(k)) != PriceToSymbol(None)
  {
  }
}
