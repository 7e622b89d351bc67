/**
 * renderFeatureInfo (script.js:83-97) as the HTML string it assigns to the
 * info panel, and ReadDisplay, a reader of that HTML used to show that the
 * panel shows exactly the kept attributes, in order, whatever they contain.
 */
module FeatureInfo {
  import opened Wrappers
  import opened HtmlEscape
  import opened Features

  const EmptyStateOpen: string := "<div class=\"empty-state\">"
  const EmptyStateHtml: string :=
    EmptyStateOpen + "Click a map feature to view its attributes." + "</div>"
  const NoAttributesHtml: string :=
    EmptyStateOpen + "No attributes to display." + "</div>"

  /** The filter: not the geometry, and neither null nor undefined. */
  predicate Shown(e: (string, Value)) {
    e.0 != "geometry" && e.1 != Null && e.1 != Undefined
  }

  function Kept(props: seq<(string, Value)>): seq<(string, Value)> {
    if props == [] then []
    else (if Shown(props[0]) then [props[0]] else []) + Kept(props[1..])
  }

  function Row(key: string, text: string): string {
    "<tr><th>" + Escape(key) + "</th><td>" + Escape(text) + "</td></tr>"
  }

  /** The map to rows followed by join(''). */
  function JoinRows(entries: seq<(string, Value)>): string {
    if entries == [] then ""
    else Row(entries[0].0, Stringify(entries[0].1)) + JoinRows(entries[1..])
  }

  function FeatureInfoHtml(feature: Option<Feature>): string {
    match feature
    case None => EmptyStateHtml
    case Some(f) =>
      var rows := JoinRows(Kept(f.props));
      if rows != "" then "<table>" + rows + "</table>" else NoAttributesHtml
  }

  // ---- What the panel displays ----

  datatype Display =
    | EmptyState
    | NoAttributes
    | Table(rows: seq<(string, string)>)
    | Unrecognised

  /** The (key, text) pairs a list of entries is displayed as. */
  function Cells(entries: seq<(string, Value)>): (cells: seq<(string, string)>)
    ensures |cells| == |entries|
    ensures forall i :: 0 <= i < |entries| ==>
      cells[i] == (entries[i].0, Stringify(entries[i].1))
  {
    if entries == [] then [] else [(entries[0].0, Stringify(entries[0].1))] + Cells(entries[1..])
  }

  /** Text that holds no `<`. */
  predicate NoTag(t: string) {
    forall i :: 0 <= i < |t| ==> t[i] != '<'
  }

  /** Splits s at its first `<`. */
  function SpanText(s: string): (r: (string, string))
    ensures r.0 + r.1 == s
    ensures NoTag(r.0)
    ensures r.1 == [] || r.1[0] == '<'
  {
    if s == [] || s[0] == '<' then ([], s)
    else
      var r := SpanText(s[1..]);
      var a := [s[0]] + r.0;
      assert a + r.1 == s by {
        assert a + r.1 == [s[0]] + (r.0 + r.1);
      }
      assert NoTag(a) by {
        assert forall i :: 0 < i < |a| ==> a[i] == r.0[i - 1];
      }
      (a, r.1)
  }

  /** Reads a sequence of rows back into unescaped (key, text) pairs. */
  function ReadRows(s: string): Option<seq<(string, string)>>
    decreases |s|
  {
    if s == [] then Some([])
    else if !IsPrefix("<tr><th>", s) then None
    else
      var (k, r1) := SpanText(s[8..]);
      if !IsPrefix("</th><td>", r1) then None
      else
        var (v, r2) := SpanText(r1[9..]);
        if !IsPrefix("</td></tr>", r2) then None
        else
          match ReadRows(r2[10..])
          case None => None
          case Some(rest) => Some([(Unescape(k), Unescape(v))] + rest)
  }

  function ReadDisplay(html: string): Display {
    if html == EmptyStateHtml then EmptyState
    else if html == NoAttributesHtml then NoAttributes
    else if |html| >= 15 && IsPrefix("<table>", html) && html[|html| - 8..] == "</table>" then
      match ReadRows(html[7..|html| - 8])
      case Some(rows) => if rows == [] then Unrecognised else Table(rows)
      case None => Unrecognised
    else Unrecognised
  }

  // ---- Properties of the filter ----

  /** The filter keeps order: it distributes over concatenation. */
  lemma {:induction false} KeptConcat(a: seq<(string, Value)>, b: seq<(string, Value)>)
    ensures Kept(a + b) == Kept(a) + Kept(b)
  {
    if a == [] {
      assert a + b == b;
    } else {
      assert (a + b)[0] == a[0];
      assert (a + b)[1..] == a[1..] + b;
      KeptConcat(a[1..], b);
    }
  }

  /** One entry is kept exactly when it is shown. */
  lemma KeptSingle(e: (string, Value))
    ensures Kept([e]) == if Shown(e) then [e] else []
  {
    assert [e][1..] == [];
  }

  /** The kept entries are exactly the shown entries of the bag. */
  lemma {:induction false} KeptMembers(props: seq<(string, Value)>)
    ensures forall e :: e in Kept(props) <==> e in props && Shown(e)
  {
    if props != [] {
      KeptMembers(props[1..]);
      assert forall e :: e in props <==> e == props[0] || e in props[1..];
    }
  }

  // ---- Properties of the rendering ----

  lemma RowNotEmpty(key: string, text: string)
    ensures |Row(key, text)| >= 27
  {
  }

  /** The joined rows are empty exactly when no entry survived the filter. */
  lemma JoinRowsEmpty(entries: seq<(string, Value)>)
    ensures JoinRows(entries) == "" <==> entries == []
  {
    if entries != [] {
      RowNotEmpty(entries[0].0, Stringify(entries[0].1));
    }
  }

  lemma {:induction false} SpanTextStopsAtTag(t: string, u: string)
    requires NoTag(t)
    requires u == [] || u[0] == '<'
    ensures SpanText(t + u) == (t, u)
  {
    if t == [] {
      assert t + u == u;
    } else {
      assert (t + u)[0] == t[0];
      assert (t + u)[1..] == t[1..] + u;
      SpanTextStopsAtTag(t[1..], u);
      assert [t[0]] + t[1..] == t;
    }
  }

  lemma Reassociate(a: string, b: string, c: string, d: string, e: string, f: string)
    ensures a + b + c + d + e + f == a + (b + (c + (d + (e + f))))
  {
  }

  lemma SplitPrefix(p: string, x: string)
    ensures IsPrefix(p, p + x) && (p + x)[|p|..] == x
  {
    assert (p + x)[..|p|] == p;
  }

  lemma ReadRow(key: string, text: string, rest: string)
    ensures
      var s := Row(key, text) + rest;
      IsPrefix("<tr><th>", s) &&
      SpanText(s[8..]) == (Escape(key), "</th><td>" + (Escape(text) + ("</td></tr>" + rest)))
  {
    var ek, et := Escape(key), Escape(text);
    var tail := "</th><td>" + (et + ("</td></tr>" + rest));
    Reassociate("<tr><th>", ek, "</th><td>", et, "</td></tr>", rest);
    SplitPrefix("<tr><th>", ek + tail);
    EscapeNoLessThan(key);
    SplitPrefix("</th><td>", et + ("</td></tr>" + rest));
    SpanTextStopsAtTag(ek, tail);
  }

  lemma ReadCell(text: string, rest: string)
    ensures
      var r1 := "</th><td>" + (Escape(text) + ("</td></tr>" + rest));
      IsPrefix("</th><td>", r1) &&
      SpanText(r1[9..]) == (Escape(text), "</td></tr>" + rest)
  {
    var et := Escape(text);
    SplitPrefix("</th><td>", et + ("</td></tr>" + rest));
    EscapeNoLessThan(text);
    SplitPrefix("</td></tr>", rest);
    SpanTextStopsAtTag(et, "</td></tr>" + rest);
  }

  /** The rows read back to the kept keys and texts, one row per entry, in order. */
  lemma {:induction false} ReadJoinRows(entries: seq<(string, Value)>)
    ensures ReadRows(JoinRows(entries)) == Some(Cells(entries))
  {
    if entries != [] {
      var key, text := entries[0].0, Stringify(entries[0].1);
      var rest := JoinRows(entries[1..]);
      var s := Row(key, text) + rest;
      ReadRow(key, text, rest);
      ReadCell(text, rest);
      SplitPrefix("</td></tr>", rest);
      ReadJoinRows(entries[1..]);
      UnescapeEscape(key);
      UnescapeEscape(text);
      assert Cells(entries) == [(key, text)] + Cells(entries[1..]);
    }
  }

  lemma TableIsNotAMarker(rows: string)
    ensures "<table>" + rows + "</table>" != EmptyStateHtml
    ensures "<table>" + rows + "</table>" != NoAttributesHtml
  {
    var h := "<table>" + rows + "</table>";
    assert h[1] == 't';
    assert EmptyStateHtml[1] == 'd' && NoAttributesHtml[1] == 'd';
  }

  /**
   * What the info panel displays: the empty-state marker without a feature;
   * the no-attributes marker when nothing survives the filter; otherwise a
   * table of exactly the kept keys and stringified values, in key order.
   * The three outcomes are told apart by the reader.
   */
  lemma RenderedDisplay(feature: Option<Feature>)
    ensures ReadDisplay(FeatureInfoHtml(feature)) ==
      match feature
      case None => EmptyState
      case Some(f) =>
        if Kept(f.props) == [] then NoAttributes else Table(Cells(Kept(f.props)))
  {
    assert NoAttributesHtml != EmptyStateHtml by {
      assert |NoAttributesHtml| != |EmptyStateHtml|;
    }
    if feature.Some? {
      var kept := Kept(feature.value.props);
      var rows := JoinRows(kept);
      JoinRowsEmpty(kept);
      if kept != [] {
        var h := "<table>" + rows + "</table>";
        TableIsNotAMarker(rows);
        assert IsPrefix("<table>", h) && h[|h| - 8..] == "</table>";
        assert h[7..|h| - 8] == rows;
        ReadJoinRows(kept);
      }
    }
  }

  /** Distinct attribute sets never render to the same HTML. */
  lemma RenderInjective(f: Feature, g: Feature)
    requires FeatureInfoHtml(Some(f)) == FeatureInfoHtml(Some(g))
    ensures Cells(Kept(f.props)) == Cells(Kept(g.props))
  {
    RenderedDisplay(Some(f));
    RenderedDisplay(Some(g));
  }

  lemma CookExample(shape: Value)
    ensures
      var f := Feature(None, [("name", Str("Cook")), ("unemployment_rate", Num("6.2")), ("geometry", shape)]);
      ReadDisplay(FeatureInfoHtml(Some(f))) == Table([("name", "Cook"), ("unemployment_rate", "6.2")])
  {
    var name, rate, geometry := ("name", Str("Cook")), ("unemployment_rate", Num("6.2")), ("geometry", shape);
    var props := [name, rate, geometry];
    assert props == [name] + [rate] + [geometry];
    KeptConcat([name] + [rate], [geometry]);
    KeptConcat([name], [rate]);
    KeptSingle(name);
    KeptSingle(rate);
    KeptSingle(geometry);
    assert Kept(props) == [name, rate];
    assert Cells([name, rate]) == [("name", "Cook"), ("unemployment_rate", "6.2")];
    RenderedDisplay(Some(Feature(None, props)));
  }
}
