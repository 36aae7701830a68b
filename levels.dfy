/** The three-tier level used both for hazard confidence and for risk. */
module Levels {

  datatype Level = Low | Medium | High

  /** The string the engines return and compare against ("Low", "Medium", "High"). */
  function Name(l: Level): (s: string)
    ensures l == High <==> s == "High"
    ensures l == Medium <==> s == "Medium"
    ensures l == Low <==> s == "Low"
  {
    match l
    case Low => "Low"
    case Medium => "Medium"
    case High => "High"
  }
}
