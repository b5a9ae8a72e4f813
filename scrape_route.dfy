/** The scrape endpoint (`POST /api/scrappe`): the decision from request body
    and scraped text to status and JSON body, and the whitespace normalisation
    `scrapeWebsite` applies to the page text. Fetching the URL and parsing
    its HTML are outside the model: the page text after `<script>` and
    `<style>` removal arrives as an input, `None` when either step threw. */
module Scrape {
  import opened Types
  import opened Text

  /** Every whitespace character is a plain space and none is followed by another. */
  ghost predicate Collapsed(r: string) {
    forall i :: 0 <= i < |r| && IsSpace(r[i]) ==> r[i] == ' ' && (i + 1 < |r| ==> !IsSpace(r[i + 1]))
  }

  /** `s.replace(/\s+/g, ' ')`: each maximal run of whitespace becomes one
      space (`CollapseIsCollapsed`, `CollapseRunBetween`). */
  function CollapseSpaces(s: string): (r: string)
    ensures r == [] <==> s == []
    ensures s != [] ==> (IsSpace(r[0]) <==> IsSpace(s[0]))
    decreases |s|
  {
    if s == [] then []
    else if IsSpace(s[0]) then " " + CollapseSpaces(s[SkipSpaces(s, 0)..])
    else [s[0]] + CollapseSpaces(s[1..])
  }

  /** The collapsed text has only single plain spaces. */
  lemma {:induction false} CollapseIsCollapsed(s: string)
    ensures Collapsed(CollapseSpaces(s))
    decreases |s|
  {
    if s != [] {
      var r := CollapseSpaces(s);
      var t := if IsSpace(s[0]) then s[SkipSpaces(s, 0)..] else s[1..];
      var rest := CollapseSpaces(t);
      CollapseIsCollapsed(t);
      assert r == [r[0]] + rest;
      assert forall i :: 0 < i < |r| ==> r[i] == rest[i - 1];
    }
  }

  lemma CollapsedSlice(r: string, a: nat, b: nat)
    requires Collapsed(r) && a <= b <= |r|
    ensures Collapsed(r[a..b])
  {
    forall i | 0 <= i < b - a && IsSpace(r[a..b][i])
      ensures r[a..b][i] == ' ' && (i + 1 < b - a ==> !IsSpace(r[a..b][i + 1]))
    {
      assert r[a..b][i] == r[a + i];
      if i + 1 < b - a { assert r[a..b][i + 1] == r[a + i + 1]; }
    }
  }

  lemma TrimKeepsCollapsed(c: string)
    requires Collapsed(c)
    ensures Collapsed(Trim(c))
  {
    var a := SkipSpaces(c, 0);
    CollapsedSlice(c, a, a + |Trim(c)|);
  }

  /** `$('body').text().replace(/\s+/g, ' ').trim()`, from the body text on:
      no whitespace at either end, only single plain spaces inside. */
  function Normalize(s: string): (r: string)
    ensures r == [] || (!IsSpace(r[0]) && !IsSpace(r[|r| - 1]))
    ensures forall i :: 0 <= i < |r| && IsSpace(r[i]) ==> r[i] == ' '
    ensures forall i :: 0 <= i < |r| - 1 ==> !(IsSpace(r[i]) && IsSpace(r[i + 1]))
  {
    CollapseIsCollapsed(s);
    TrimKeepsCollapsed(CollapseSpaces(s));
    Trim(CollapseSpaces(s))
  }

  /** The characters of `s` that are not whitespace, in order. */
  function NonSpace(s: string): string {
    if s == [] then [] else (if IsSpace(s[0]) then [] else [s[0]]) + NonSpace(s[1..])
  }

  lemma {:induction false} NonSpaceConcat(x: string, y: string)
    ensures NonSpace(x + y) == NonSpace(x) + NonSpace(y)
  {
    if x != [] {
      var head := if IsSpace(x[0]) then [] else [x[0]];
      assert (x + y)[0] == x[0] && (x + y)[1..] == x[1..] + y;
      NonSpaceConcat(x[1..], y);
      assert NonSpace(x + y) == head + (NonSpace(x[1..]) + NonSpace(y));
    } else {
      assert x + y == y;
    }
  }

  lemma {:induction false} NonSpaceOfSpaces(s: string)
    requires AllSpace(s)
    ensures NonSpace(s) == []
  {
    if s != [] { NonSpaceOfSpaces(s[1..]); }
  }

  /** Collapsing whitespace keeps every other character, in order. */
  lemma {:induction false} CollapseKeepsText(s: string)
    ensures NonSpace(CollapseSpaces(s)) == NonSpace(s)
    decreases |s|
  {
    if s == [] {
    } else if IsSpace(s[0]) {
      var a := SkipSpaces(s, 0);
      var t, lead := s[a..], s[..a];
      CollapseKeepsText(t);
      NonSpaceConcat(" ", CollapseSpaces(t));
      assert s == lead + t;
      NonSpaceConcat(lead, t);
      NonSpaceOfSpaces(lead);
    } else {
      CollapseKeepsText(s[1..]);
    }
  }

  /** Trimming removes whitespace only. */
  lemma TrimKeepsText(s: string)
    ensures NonSpace(Trim(s)) == NonSpace(s)
  {
    var r := Trim(s);
    var a := SkipSpaces(s, 0);
    var lead, trail := s[..a], s[a + |r|..];
    assert AllSpace(lead) && AllSpace(trail);
    assert s[a..] == r + trail;
    assert s == lead + (r + trail);
    NonSpaceConcat(lead, r + trail);
    NonSpaceConcat(r, trail);
    NonSpaceOfSpaces(lead);
    NonSpaceOfSpaces(trail);
  }

  /** Normalisation drops and merges whitespace only: the other characters
      of the page text all survive, in their original order. */
  lemma NormalizeKeepsText(s: string)
    ensures NonSpace(Normalize(s)) == NonSpace(s)
  {
    CollapseKeepsText(s);
    TrimKeepsText(CollapseSpaces(s));
  }

  lemma {:induction false} CollapseFixesCollapsed(s: string)
    requires Collapsed(s)
    ensures CollapseSpaces(s) == s
  {
    if s != [] {
      CollapsedSlice(s, 1, |s|);
      if IsSpace(s[0]) {
        assert s[1..] == [] || !IsSpace(s[1..][0]);
        assert SkipSpaces(s, 0) == 1;
      }
      CollapseFixesCollapsed(s[1..]);
    }
  }

  /** Text without whitespace is left as it is by collapsing. */
  lemma {:induction false} CollapseWord(s: string)
    requires forall i :: 0 <= i < |s| ==> !IsSpace(s[i])
    ensures CollapseSpaces(s) == s
  {
    if s != [] {
      CollapseWord(s[1..]);
    }
  }

  /** Collapsing keeps whether the text ends with whitespace. */
  lemma {:induction false} CollapseLast(s: string)
    requires s != []
    ensures CollapseSpaces(s) != []
    ensures IsSpace(CollapseSpaces(s)[|CollapseSpaces(s)| - 1]) <==> IsSpace(s[|s| - 1])
    decreases |s|
  {
    if IsSpace(s[0]) {
      var k := SkipSpaces(s, 0);
      if k < |s| {
        CollapseLast(s[k..]);
      }
    } else if |s| > 1 {
      CollapseLast(s[1..]);
    }
  }

  /** Collapsing works run by run: text that ends with a non-whitespace
      character collapses independently of what follows it. */
  lemma {:induction false} CollapseConcat(a: string, c: string)
    requires a == [] || !IsSpace(a[|a| - 1])
    ensures CollapseSpaces(a + c) == CollapseSpaces(a) + CollapseSpaces(c)
    decreases |a|
  {
    if a == [] {
      assert a + c == c;
    } else if IsSpace(a[0]) {
      var k := SkipSpaces(a, 0);
      SkipSpacesAt(a + c, 0, k);
      assert (a + c)[k..] == a[k..] + c;
      CollapseConcat(a[k..], c);
    } else {
      assert (a + c)[1..] == a[1..] + c;
      CollapseConcat(a[1..], c);
    }
  }

  /** A leading run of whitespace becomes exactly one space. */
  lemma CollapseLeadingRun(w: string, b: string)
    requires w != [] && AllSpace(w) && (b == [] || !IsSpace(b[0]))
    ensures CollapseSpaces(w + b) == " " + CollapseSpaces(b)
  {
    SkipSpacesAt(w + b, 0, |w|);
    assert (w + b)[|w|..] == b;
  }

  /** A run of whitespace between two pieces of text becomes exactly one
      space, and each piece collapses on its own. */
  lemma CollapseRunBetween(a: string, w: string, b: string)
    requires a != [] && !IsSpace(a[|a| - 1])
    requires w != [] && AllSpace(w) && (b == [] || !IsSpace(b[0]))
    ensures CollapseSpaces(a + w + b) == CollapseSpaces(a) + " " + CollapseSpaces(b)
  {
    var c := w + b;
    assert a + w + b == a + c;
    CollapseConcat(a, c);
    CollapseLeadingRun(w, b);
    var x, y := CollapseSpaces(a), CollapseSpaces(b);
    assert x + (" " + y) == x + " " + y;
  }

  /** Normalisation keeps words apart: two pieces of text with
      non-whitespace ends, joined by any run of whitespace, normalise to
      their own normalisations joined by exactly one space. */
  lemma NormalizeRunBetween(a: string, w: string, b: string)
    requires a != [] && !IsSpace(a[0]) && !IsSpace(a[|a| - 1])
    requires b != [] && !IsSpace(b[0]) && !IsSpace(b[|b| - 1])
    requires w != [] && AllSpace(w)
    ensures Normalize(a + w + b) == Normalize(a) + " " + Normalize(b)
  {
    CollapseRunBetween(a, w, b);
    var x, y := CollapseSpaces(a), CollapseSpaces(b);
    CollapseLast(a);
    CollapseLast(b);
    TrimOfTrimmed(x);
    TrimOfTrimmed(y);
    var j := x + " " + y;
    assert j[0] == x[0] && j[|j| - 1] == y[|y| - 1];
    TrimOfTrimmed(j);
  }

  /** A single word normalises to itself; with `NormalizeRunBetween`, words
      separated by whitespace come out separated by one space. */
  lemma NormalizeWord(s: string)
    requires forall i :: 0 <= i < |s| ==> !IsSpace(s[i])
    ensures Normalize(s) == s
  {
    CollapseWord(s);
    TrimOfTrimmed(s);
  }

  /** Normalising already normalised text changes nothing. */
  lemma NormalizeIdempotent(s: string)
    ensures Normalize(Normalize(s)) == Normalize(s)
  {
    var r := Normalize(s);
    assert Collapsed(r);
    CollapseFixesCollapsed(r);
  }

  /** The text is empty exactly when the page held nothing but whitespace. */
  lemma {:induction false} NormalizeEmptyIff(s: string)
    ensures Normalize(s) == [] <==> AllSpace(s)
  {
    NormalizeKeepsText(s);
    if AllSpace(s) {
      NonSpaceOfSpaces(s);
      NonSpaceEmptyIsSpaces(Normalize(s));
      TrimEmptyIffAllSpace(CollapseSpaces(s));
    } else {
      var i :| 0 <= i < |s| && !IsSpace(s[i]);
      NonSpaceHas(s, i);
    }
  }

  lemma {:induction false} NonSpaceEmptyIsSpaces(s: string)
    requires NonSpace(s) == []
    ensures AllSpace(s)
  {
    if s != [] {
      NonSpaceEmptyIsSpaces(s[1..]);
      assert forall i :: 1 <= i < |s| ==> s[i] == s[1..][i - 1];
    }
  }

  lemma {:induction false} NonSpaceHas(s: string, i: nat)
    requires i < |s| && !IsSpace(s[i])
    ensures NonSpace(s) != []
  {
    if i > 0 && IsSpace(s[0]) { NonSpaceHas(s[1..], i - 1); }
  }

  /** A parsed JSON value as JavaScript sees it; `Undefined` is an absent
      property, `Compound` an array or object. */
  datatype JsValue = Undefined | Null | Bool(b: bool) | Number(n: real) | Str(s: string) | Compound

  /** `!v` in JavaScript. */
  function Falsy(v: JsValue): (b: bool)
    ensures v.Str? ==> (b <==> v.s == [])
    ensures v.Number? ==> (b <==> v.n == 0.0)
    ensures v.Bool? ==> b == !v.b
    ensures v.Compound? ==> !b
    ensures v.Undefined? || v.Null? ==> b
  {
    v.Undefined? || v.Null? || v == Bool(false) || v == Number(0.0) || v == Str("")
  }

  /** The outcome of `const { url } = await req.json()`: the body could not
      be read or parsed, it was JSON `null` (destructuring throws), or it
      yielded a value for `url`. */
  datatype RequestBody = Unreadable | NullBody | Body(url: JsValue)

  /** The JSON reply `{ success, content?, error? }` with its HTTP status. */
  datatype ScrapeResponse = ScrapeResponse(status: int, success: bool, content: Option<string>, error: Option<string>)

  const UrlRequired := "URL is required"
  const ScrapeFailed := "Failed to scrape website"
  const InternalError := "Internal Server Error"

  /** `scrapeWebsite(url)`: `page` is the fetched body text, `None` when
      the request or the parse threw (the function then returns null). */
  function ScrapeWebsite(page: Option<string>): (r: Option<string>)
    ensures r.Some? <==> page.Some?
    ensures r.Some? ==> (r.value == [] <==> AllSpace(page.value))
    ensures r.Some? ==> NonSpace(r.value) == NonSpace(page.value)
    ensures r.Some? ==> r.value == Normalize(page.value)
  {
    match page
    case None => None
    case Some(text) =>
      NormalizeEmptyIff(text);
      NormalizeKeepsText(text);
      Some(Normalize(text))
  }

  /** `POST`: every way a request can end, by status. */
  function Post(body: RequestBody, page: Option<string>): (r: ScrapeResponse)
    ensures r.success <==> r.status == 200
    ensures body.Unreadable? || body.NullBody? ==>
      r == ScrapeResponse(500, false, None, Some(InternalError))
    ensures body.Body? && Falsy(body.url) ==>
      r == ScrapeResponse(400, false, None, Some(UrlRequired))
    ensures body.Body? && !Falsy(body.url) && (page.None? || AllSpace(page.value)) ==>
      r == ScrapeResponse(500, false, None, Some(ScrapeFailed))
    ensures body.Body? && !Falsy(body.url) && page.Some? && !AllSpace(page.value) ==>
      r == ScrapeResponse(200, true, Some(Normalize(page.value)), None)
  {
    match body
    case Unreadable => ScrapeResponse(500, false, None, Some(InternalError))
    case NullBody => ScrapeResponse(500, false, None, Some(InternalError))
    case Body(url) =>
      if Falsy(url) then ScrapeResponse(400, false, None, Some(UrlRequired))
      else
        var content := ScrapeWebsite(page);
        if content.Some? && content.value != [] then
          ScrapeResponse(200, true, content, None)
        else
          ScrapeResponse(500, false, None, Some(ScrapeFailed))
  }
}
