/**
 * Features as the inspector sees them: an optional identifier and the
 * ordered property bag returned by getProperties(), whose `geometry` entry
 * holds the geometry.
 */
module Features {
  import opened Wrappers

  /**
   * An attribute value.  Num and Obj carry the text the host computes for
   * them: String(n) for a number and JSON.stringify(v) for an object or
   * array; those conversions are not part of this model.
   */
  datatype Value =
    | Str(s: string)
    | Num(text: string)
    | Bool(b: bool)
    | Obj(json: string)
    | Null
    | Undefined

  datatype Feature = Feature(id: Option<string>, props: seq<(string, Value)>)

  /** `typeof v === 'object' ? JSON.stringify(v) : String(v)` (script.js:92). */
  function Stringify(v: Value): string {
    match v
    case Str(s) => s
    case Num(text) => text
    case Bool(b) => if b then "true" else "false"
    case Obj(json) => json
    case Null => "null"
    case Undefined => "undefined"
  }

  /** feature.clone(): a new feature with the same properties and no identifier. */
  function CloneFeature(f: Feature): Feature {
    Feature(None, f.props)
  }

  function SetId(f: Feature, id: Option<string>): Feature {
    f.(id := id)
  }

  /** The copy highlightFeature inserts: clone, then restore the identifier. */
  function HighlightCopy(f: Feature): Feature {
    SetId(CloneFeature(f), f.id)
  }

  /** The copy keeps the source's identifier (or lack of one) and its properties. */
  lemma HighlightCopyPreserves(f: Feature)
    ensures HighlightCopy(f).id == f.id
    ensures HighlightCopy(f).props == f.props
    ensures HighlightCopy(f) == f
  {
  }
}
