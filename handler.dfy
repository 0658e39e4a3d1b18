/**
 * The `GET /` handler (index.js:72-89): read the template, fetch the items,
 * and substitute their serialisation for the first occurrence of the marker
 * `var notion_data = [];` (the regular expression has no `g` flag).
 *
 * Reading the file is an `Option<string>` input and `JSON.stringify` is a
 * parameter `serialize`; every property here holds for any serialiser.
 */
module Handler {
  import opened Wrappers
  import opened Normalizer
  import opened Fetcher

  /** The literal text the regular expression `/var notion_data = \[\];/` matches. */
  const Marker: string := "var notion_data = [];"

  const LoadError: string := "Error loading HTML"

  datatype Response = Response(status: int, body: string)

  /** `pat` occurs in `s` starting at index `i`. */
  predicate OccursAt(s: string, pat: string, i: int) {
    0 <= i && i + |pat| <= |s| && s[i..i + |pat|] == pat
  }

  /** The leftmost occurrence of `pat` in `s` at or after `from`, as a regular-expression search finds it. */
  function FirstOccurrenceFrom(s: string, pat: string, from: nat): (r: Option<nat>)
    requires from <= |s|
    ensures r.Some? ==> from <= r.value && OccursAt(s, pat, r.value)
    ensures r.Some? ==> forall j :: from <= j < r.value ==> !OccursAt(s, pat, j)
    ensures r.None? ==> forall j :: from <= j <= |s| ==> !OccursAt(s, pat, j)
    decreases |s| - from
  {
    if OccursAt(s, pat, from) then Some(from)
    else if from == |s| then None
    else FirstOccurrenceFrom(s, pat, from + 1)
  }

  function FirstOccurrence(s: string, pat: string): (r: Option<nat>)
    ensures r.Some? ==> OccursAt(s, pat, r.value) && forall j :: 0 <= j < r.value ==> !OccursAt(s, pat, j)
    ensures r.None? ==> forall j :: 0 <= j <= |s| ==> !OccursAt(s, pat, j)
  {
    FirstOccurrenceFrom(s, pat, 0)
  }

  /**
   * Replace the leftmost occurrence of `pat` by `rep`, inserting `rep`
   * literally; without an occurrence `s` comes back unchanged.
   */
  function ReplaceFirst(s: string, pat: string, rep: string): (r: string)
    ensures (forall j :: 0 <= j <= |s| ==> !OccursAt(s, pat, j)) ==> r == s
    ensures forall i :: OccursAt(s, pat, i) && (forall j :: 0 <= j < i ==> !OccursAt(s, pat, j)) ==>
              r == s[..i] + rep + s[i + |pat|..]
  {
    match FirstOccurrence(s, pat)
    case None => s
    case Some(i) => s[..i] + rep + s[i + |pat|..]
  }

  /** `'var notion_data = ' + json + ';'` */
  function Assignment(json: string): string {
    "var notion_data = " + json + ";"
  }

  /** The marker replacement with the serialised data inserted verbatim. */
  function Inject(html: string, json: string): (r: string)
    ensures (forall j :: 0 <= j <= |html| ==> !OccursAt(html, Marker, j)) ==> r == html
  {
    ReplaceFirst(html, Marker, Assignment(json))
  }

  /**
   * The response of `GET /` once the data is known, as index.js sends it: a
   * fixed 500 when the template cannot be read, otherwise 200 with the data
   * put in by `String.prototype.replace` (see `InjectAsWritten`).
   */
  function Render(template: Option<string>, data: seq<Item>, serialize: seq<Item> -> string): (resp: Response)
    ensures template.None? ==> resp == Response(500, LoadError)
    ensures template.Some? ==> resp.status == 200
    ensures template.Some? && (forall j :: 0 <= j <= |template.value| ==> !OccursAt(template.value, Marker, j)) ==>
              resp.body == template.value
    ensures template.Some? && NoPattern(serialize(data)) ==> resp.body == Inject(template.value, serialize(data))
  {
    match template
    case None => Response(500, LoadError)
    case Some(html) =>
      AsWrittenAgreesWithoutPattern(html, serialize(data));
      Response(200, InjectAsWritten(html, serialize(data)))
  }

  /** The response with the serialised data inserted verbatim: the corrected handler. */
  function RenderCorrected(template: Option<string>, data: seq<Item>, serialize: seq<Item> -> string): (resp: Response)
    ensures template.None? ==> resp == Response(500, LoadError)
    ensures template.Some? ==> resp.status == 200
    ensures template.Some? && (forall j :: 0 <= j <= |template.value| ==> !OccursAt(template.value, Marker, j)) ==>
              resp.body == template.value
  {
    match template
    case None => Response(500, LoadError)
    case Some(html) => Response(200, Inject(html, serialize(data)))
  }

  /**
   * The handler. The template is read first and, when it cannot be read, the
   * handler answers before `fetchNotionData` runs, so the cache is untouched.
   */
  method HandleRoot(cache: DataCache, template: Option<string>, now: int, tableId: Option<string>, token: Option<string>,
                    u: Upstream, serialize: seq<Item> -> string)
    returns (resp: Response)
    modifies cache
    ensures template.None? ==> resp == Response(500, LoadError) && unchanged(cache)
    ensures template.Some? ==>
              var f := FetchOutcome(old(cache.Entry()), now, tableId, token, u);
              cache.Entry() == f.cache && resp == Render(template, f.items, serialize)
  {
    var html: string;
    match template
    case None =>
      return Response(500, LoadError);
    case Some(t) =>
      html := t;
    var notionData := cache.FetchNotionData(now, tableId, token, u);
    html := InjectAsWritten(html, serialize(notionData));
    return Response(200, html);
  }

  /**
   * The leftmost marker is replaced by the assignment and nothing else in the
   * page changes: the text before it and the text after it, later markers
   * included, are kept.
   */
  lemma InjectReplacesFirstMarker(html: string, json: string, i: nat)
    requires OccursAt(html, Marker, i) && forall j :: 0 <= j < i ==> !OccursAt(html, Marker, j)
    ensures Inject(html, json) == html[..i] + Assignment(json) + html[i + |Marker|..]
    ensures OccursAt(Inject(html, json), Assignment(json), i)
  {
    var r := Inject(html, json);
    assert r[i..i + |Assignment(json)|] == Assignment(json);
  }

  /**
   * A template containing the marker renders with the serialised data's
   * assignment in it, provided the serialisation has no `$` pattern.
   */
  lemma RenderContainsData(html: string, data: seq<Item>, serialize: seq<Item> -> string)
    requires exists i :: OccursAt(html, Marker, i)
    requires NoPattern(serialize(data))
    ensures exists k :: OccursAt(Render(Some(html), data, serialize).body, Assignment(serialize(data)), k)
  {
    var k := FirstMarker(html);
    InjectReplacesFirstMarker(html, serialize(data), k);
    assert Render(Some(html), data, serialize).body == Inject(html, serialize(data));
  }

  /** With the corrected insertion the assignment is always in the page. */
  lemma RenderCorrectedContainsData(html: string, data: seq<Item>, serialize: seq<Item> -> string)
    requires exists i :: OccursAt(html, Marker, i)
    ensures exists k :: OccursAt(RenderCorrected(Some(html), data, serialize).body, Assignment(serialize(data)), k)
  {
    var k := FirstMarker(html);
    InjectReplacesFirstMarker(html, serialize(data), k);
    assert RenderCorrected(Some(html), data, serialize).body == Inject(html, serialize(data));
  }

  /** A page that contains the marker has a leftmost one. */
  lemma FirstMarker(html: string) returns (k: nat)
    requires exists i :: OccursAt(html, Marker, i)
    ensures OccursAt(html, Marker, k) && forall j :: 0 <= j < k ==> !OccursAt(html, Marker, j)
  {
    var i :| OccursAt(html, Marker, i);
    var r := FirstOccurrence(html, Marker);
    k := r.value;
  }

  /** With the corrected insertion, `<html>var notion_data = [];</html>` becomes `<html>var notion_data = <json>;</html>`. */
  lemma WholePageExampleCorrected(json: string)
    ensures Inject("<html>" + Marker + "</html>", json) == "<html>" + Assignment(json) + "</html>"
  {
    var html := "<html>" + Marker + "</html>";
    assert OccursAt(html, Marker, 6);
    forall j | 0 <= j < 6 ensures !OccursAt(html, Marker, j) {
      assert html[j + 6] != Marker[6];
    }
    InjectReplacesFirstMarker(html, json, 6);
    assert html[..6] == "<html>" && html[6 + |Marker|..] == "</html>";
  }

  /** index.js renders `<html>var notion_data = [];</html>` to `<html>var notion_data = <json>;</html>` when `json` has no `$` pattern. */
  lemma WholePageExample(json: string)
    requires NoPattern(json)
    ensures InjectAsWritten("<html>" + Marker + "</html>", json) == "<html>" + Assignment(json) + "</html>"
  {
    WholePageExampleCorrected(json);
    AsWrittenAgreesWithoutPattern("<html>" + Marker + "</html>", json);
  }

  /* ----- The replacement as `String.prototype.replace` performs it ----- */

  /** `$` followed by one of these starts a replacement pattern when the regular expression has no groups. */
  predicate IsPatternChar(c: char) {
    c == '$' || c == '&' || c == '`' || c == '\''
  }

  /** `s` contains no `$` at all. */
  predicate NoDollar(s: string) {
    forall k :: 0 <= k < |s| ==> s[k] != '$'
  }

  /** No `$` in `s` is followed by a pattern character, so expansion has nothing to do. */
  predicate NoPattern(s: string) {
    forall k :: 0 <= k < |s| - 1 && s[k] == '$' ==> !IsPatternChar(s[k + 1])
  }

  /**
   * The replacement template expansion of ECMAScript's GetSubstitution
   * abstract operation for a match without capture groups and without named
   * groups: `$$` gives `$`, `$&` the matched text, `` $` `` the text before
   * the match, `$'` the text after it. Every other `$` (`$1`, `$<`, a
   * trailing `$`) refers to no group and stays literal.
   */
  function Substitution(rep: string, matched: string, before: string, after: string): string
  {
    if |rep| == 0 then ""
    else if rep[0] == '$' && |rep| >= 2 && rep[1] == '$' then "$" + Substitution(rep[2..], matched, before, after)
    else if rep[0] == '$' && |rep| >= 2 && rep[1] == '&' then matched + Substitution(rep[2..], matched, before, after)
    else if rep[0] == '$' && |rep| >= 2 && rep[1] == '`' then before + Substitution(rep[2..], matched, before, after)
    else if rep[0] == '$' && |rep| >= 2 && rep[1] == '\'' then after + Substitution(rep[2..], matched, before, after)
    else [rep[0]] + Substitution(rep[1..], matched, before, after)
  }

  /** A replacement without any of the four patterns comes back unchanged. */
  lemma {:induction false} SubstitutionNoPattern(rep: string, matched: string, before: string, after: string)
    requires NoPattern(rep)
    ensures Substitution(rep, matched, before, after) == rep
    decreases |rep|
  {
    if |rep| > 0 {
      assert NoPattern(rep[1..]) by {
        forall k | 0 <= k < |rep[1..]| - 1 && rep[1..][k] == '$' ensures !IsPatternChar(rep[1..][k + 1]) {
          assert rep[k + 1] == '$';
        }
      }
      SubstitutionNoPattern(rep[1..], matched, before, after);
      if rep[0] == '$' && |rep| >= 2 {
        assert !IsPatternChar(rep[1]);
      }
      assert [rep[0]] + rep[1..] == rep;
    }
  }

  /**
   * `html.replace(/var notion_data = \[\];/, 'var notion_data = ' + json + ';')`
   * exactly as JavaScript evaluates it: the replacement string is expanded.
   */
  function InjectAsWritten(html: string, json: string): (r: string)
    ensures (forall j :: 0 <= j <= |html| ==> !OccursAt(html, Marker, j)) ==> r == html
  {
    match FirstOccurrence(html, Marker)
    case None => html
    case Some(i) => html[..i] + Substitution(Assignment(json), Marker, html[..i], html[i + |Marker|..]) + html[i + |Marker|..]
  }

  /** A character other than `$` is copied by the expansion. */
  lemma SubstitutionStep(c: char, t: string, matched: string, before: string, after: string)
    requires c != '$'
    ensures Substitution([c] + t, matched, before, after) == [c] + Substitution(t, matched, before, after)
  {
    assert ([c] + t)[0] == c && ([c] + t)[1..] == t;
  }

  /** A text without `$` passes through the expansion unchanged. */
  lemma {:induction false} SubstitutionLiteral(p: string, rest: string, matched: string, before: string, after: string)
    requires NoDollar(p)
    ensures Substitution(p + rest, matched, before, after) == p + Substitution(rest, matched, before, after)
  {
    if p == [] {
      assert p + rest == rest;
    } else {
      var c, p' := p[0], p[1..];
      assert NoDollar(p') by {
        forall k | 0 <= k < |p'| ensures p'[k] != '$' { assert p'[k] == p[k + 1]; }
      }
      assert p + rest == [c] + (p' + rest);
      SubstitutionStep(c, p' + rest, matched, before, after);
      SubstitutionLiteral(p', rest, matched, before, after);
      assert [c] + (p' + Substitution(rest, matched, before, after)) == p + Substitution(rest, matched, before, after);
    }
  }

  /** The assignment around a serialisation without `$` pattern has none either. */
  lemma AssignmentNoPattern(json: string)
    requires NoPattern(json)
    ensures NoPattern(Assignment(json))
  {
    var a := Assignment(json);
    forall k | 0 <= k < |a| - 1 && a[k] == '$' ensures !IsPatternChar(a[k + 1]) {
      if k >= 18 {
        if k < 18 + |json| - 1 {
          assert a[k] == json[k - 18] && a[k + 1] == json[k + 1 - 18];
        } else {
          assert a[k + 1] == ';';
        }
      }
    }
  }

  /** The as-written and the literal replacement agree when the serialised data has no `$` pattern. */
  lemma AsWrittenAgreesWithoutPattern(html: string, json: string)
    ensures NoPattern(json) ==> InjectAsWritten(html, json) == Inject(html, json)
  {
    if NoPattern(json) {
      AssignmentNoPattern(json);
      match FirstOccurrence(html, Marker)
      case None =>
      case Some(i) =>
        SubstitutionNoPattern(Assignment(json), Marker, html[..i], html[i + |Marker|..]);
    }
  }

  /**
   * The as-written replacement keeps the text before and after the leftmost
   * marker and puts the expanded assignment in between, whatever `json` holds.
   */
  lemma InjectAsWrittenAtFirstMarker(html: string, json: string, i: nat)
    requires OccursAt(html, Marker, i) && forall j :: 0 <= j < i ==> !OccursAt(html, Marker, j)
    ensures InjectAsWritten(html, json)
            == html[..i] + Substitution(Assignment(json), Marker, html[..i], html[i + |Marker|..]) + html[i + |Marker|..]
  {
    assert FirstOccurrence(html, Marker) == Some(i);
  }

  /**
   * The page index.js sends for a template with the marker, whatever the
   * serialisation: the text around the leftmost marker is kept and the
   * expanded assignment stands in its place.
   */
  lemma RenderAtFirstMarker(html: string, data: seq<Item>, serialize: seq<Item> -> string, i: nat)
    requires OccursAt(html, Marker, i) && forall j :: 0 <= j < i ==> !OccursAt(html, Marker, j)
    ensures Render(Some(html), data, serialize).body
            == html[..i] + Substitution(Assignment(serialize(data)), Marker, html[..i], html[i + |Marker|..]) + html[i + |Marker|..]
  {
    InjectAsWrittenAtFirstMarker(html, serialize(data), i);
  }

  /** The fixed text before the data has no `$`. */
  lemma LeadHasNoDollar(p: string)
    requires NoDollar(p)
    ensures NoDollar("var notion_data = " + p)
  {
    var lead := "var notion_data = " + p;
    forall k | 0 <= k < |lead| ensures lead[k] != '$' {
      if k >= 18 { assert lead[k] == p[k - 18]; }
    }
  }

  /** The text after the data has no `$`. */
  lemma TailHasNoDollar(q: string)
    requires NoDollar(q)
    ensures NoDollar(q + ";")
  {
    var tail := q + ";";
    forall k | 0 <= k < |tail| ensures tail[k] != '$' {
      if k < |q| { assert tail[k] == q[k]; }
    }
  }

  /** `$&` followed by text without `$` expands to the matched text and that text. */
  lemma ExpandAmpersand(tail: string, matched: string, before: string, after: string)
    requires NoDollar(tail)
    ensures Substitution("$&" + tail, matched, before, after) == matched + tail
  {
    assert ("$&" + tail)[0] == '$' && ("$&" + tail)[1] == '&';
    assert ("$&" + tail)[2..] == tail;
    SubstitutionLiteral(tail, "", matched, before, after);
    assert tail + "" == tail;
  }

  /** One `$&` between two `$`-free texts expands to the matched text. */
  lemma ExpandOneAmpersand(lead: string, tail: string, matched: string, before: string, after: string)
    requires NoDollar(lead) && NoDollar(tail)
    ensures Substitution(lead + ("$&" + tail), matched, before, after) == lead + (matched + tail)
  {
    SubstitutionLiteral(lead, "$&" + tail, matched, before, after);
    ExpandAmpersand(tail, matched, before, after);
  }

  /** Expanding the assignment of a text with one `$&` puts the matched text in its place. */
  lemma ExpandAssignment(p: string, q: string, matched: string, before: string, after: string)
    requires NoDollar(p) && NoDollar(q)
    ensures Substitution(Assignment(p + "$&" + q), matched, before, after)
            == "var notion_data = " + p + matched + q + ";"
  {
    var lead := "var notion_data = " + p;
    var tail := q + ";";
    assert Assignment(p + "$&" + q) == lead + ("$&" + tail);
    LeadHasNoDollar(p);
    TailHasNoDollar(q);
    ExpandOneAmpersand(lead, tail, matched, before, after);
    assert lead + (matched + tail) == "var notion_data = " + p + matched + q + ";";
  }

  /** The marker on its own is found at index 0. */
  lemma MarkerFoundAtStart()
    ensures FirstOccurrence(Marker, Marker) == Some(0)
  {
    assert OccursAt(Marker, Marker, 0);
  }

  /** On a template that is just the marker, both replacements act on the whole text. */
  lemma InjectOnBareMarker(json: string)
    ensures InjectAsWritten(Marker, json) == Substitution(Assignment(json), Marker, "", "")
    ensures Inject(Marker, json) == Assignment(json)
  {
    MarkerFoundAtStart();
    assert Marker[..0] == "" && Marker[0 + |Marker|..] == "";
    var e := Substitution(Assignment(json), Marker, "", "");
    assert "" + e + "" == e;
    assert "" + Assignment(json) + "" == Assignment(json);
  }

  /**
   * A serialised item text containing `$&` (an item named `$&`, say) makes
   * the as-written replacement paste the marker itself into the page, where
   * the literal replacement keeps `$&`.
   */
  lemma DollarAmpersandCounterexample(p: string, q: string)
    requires NoDollar(p) && NoDollar(q)
    ensures InjectAsWritten(Marker, p + "$&" + q) == "var notion_data = " + p + Marker + q + ";"
    ensures Inject(Marker, p + "$&" + q) == "var notion_data = " + p + "$&" + q + ";"
    ensures InjectAsWritten(Marker, p + "$&" + q) != Inject(Marker, p + "$&" + q)
  {
    InjectOnBareMarker(p + "$&" + q);
    ExpandAssignment(p, q, Marker, "", "");
    assert Assignment(p + "$&" + q) == "var notion_data = " + p + "$&" + q + ";";
    MarkerDiffersFromPattern(p, q);
  }

  /** Pasting the marker where `$&` stood gives a different text. */
  lemma MarkerDiffersFromPattern(p: string, q: string)
    ensures "var notion_data = " + p + Marker + q + ";" != "var notion_data = " + p + "$&" + q + ";"
  {
    var asWritten := "var notion_data = " + p + Marker + q + ";";
    var literal := "var notion_data = " + p + "$&" + q + ";";
    assert asWritten[18 + |p|] == 'v' && literal[18 + |p|] == '$';
  }
}
