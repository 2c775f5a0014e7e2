/** URL detection in chat text and the split of a message into plain text
    and clickable links. The pattern is `https?://` followed by a maximal,
    non-empty run of characters outside `\s`, searched for left to right
    with a global regular expression. */
module LinkDetection {
  import opened Wrappers
  import opened JsText

  /** A match record: the URL, where it starts, where it ends, and its text. */
  datatype Link = Link(url: string, start: nat, end: nat, text: string)

  /** One piece of a rendered message. */
  datatype Part = Text(s: string) | Anchor(href: string)

  /** A rendered message: one span holding a string, or a span of parts. */
  datatype Rendered = Whole(s: string) | Parts(parts: seq<Part>)

  /** The length of the run of non-whitespace characters starting at `at`. */
  function RunLength(text: string, at: nat): (n: nat)
    requires at <= |text|
    ensures at + n <= |text|
    decreases |text| - at
  {
    if at == |text| || IsWhitespace(text[at]) then 0 else 1 + RunLength(text, at + 1)
  }

  /** The run holds no whitespace and stops at the end of the text or at a
      whitespace character. */
  lemma {:induction false} RunLengthShape(text: string, at: nat)
    requires at <= |text|
    ensures forall k :: at <= k < at + RunLength(text, at) ==> !IsWhitespace(text[k])
    ensures at + RunLength(text, at) == |text| || IsWhitespace(text[at + RunLength(text, at)])
    decreases |text| - at
  {
    if at < |text| && !IsWhitespace(text[at]) {
      RunLengthShape(text, at + 1);
    }
  }

  /** The length of the scheme and separator at `at`: 7 for `http://`,
      8 for `https://`, 0 when neither begins there. */
  function SchemeLength(text: string, at: nat): (p: nat)
    ensures p == 0 || p == 7 || p == 8
    ensures p > 0 ==> at + p <= |text| && text[at] == 'h'
  {
    if at + 7 <= |text| && text[at] == 'h' && text[at + 1] == 't' && text[at + 2] == 't' && text[at + 3] == 'p' then
      if text[at + 4] == ':' && text[at + 5] == '/' && text[at + 6] == '/' then 7
      else if at + 8 <= |text| && text[at + 4] == 's' && text[at + 5] == ':' && text[at + 6] == '/' && text[at + 7] == '/' then 8
      else 0
    else 0
  }

  /** The scheme length is that of the prefix `http://` or `https://` found
      at `at`, and 0 exactly when neither occurs there. */
  lemma SchemeOccurs(text: string, at: nat)
    ensures SchemeLength(text, at) == 7 <==> OccursAt(text, "http://", at)
    ensures SchemeLength(text, at) == 8 <==> OccursAt(text, "https://", at)
  {
    if OccursAt(text, "http://", at) {
      var w := text[at..at + 7];
      assert w[0] == text[at] && w[1] == text[at + 1] && w[2] == text[at + 2] && w[3] == text[at + 3];
      assert w[4] == text[at + 4] && w[5] == text[at + 5] && w[6] == text[at + 6];
    }
    if OccursAt(text, "https://", at) {
      var w := text[at..at + 8];
      assert w[0] == text[at] && w[1] == text[at + 1] && w[2] == text[at + 2] && w[3] == text[at + 3];
      assert w[4] == text[at + 4] && w[5] == text[at + 5] && w[6] == text[at + 6] && w[7] == text[at + 7];
    }
  }

  /** The length of the match of the pattern that begins exactly at `at`,
      if one does: the scheme, then the longest run of non-whitespace, which
      must not be empty. `https` is tried before `http`; when it fails the
      shorter scheme cannot succeed either, since `s` is not `:`. */
  function MatchAt(text: string, at: nat): (r: Option<nat>)
    requires at <= |text|
    ensures r.Some? ==> 7 < r.value && at + r.value <= |text|
  {
    var p := SchemeLength(text, at);
    if p == 0 || at + p > |text| then None
    else
      var n := RunLength(text, at + p);
      if n == 0 then None else Some(p + n)
  }

  /** The pattern matches at `at` exactly when a scheme starts there and is
      followed by a non-whitespace character; the match then takes the whole
      run of non-whitespace after the scheme, up to the end of the text or
      the next whitespace character. */
  lemma MatchAtShape(text: string, at: nat)
    requires at <= |text|
    ensures MatchAt(text, at).Some? <==>
      && SchemeLength(text, at) > 0
      && at + SchemeLength(text, at) < |text|
      && !IsWhitespace(text[at + SchemeLength(text, at)])
    ensures MatchAt(text, at).Some? ==>
      && SchemeLength(text, at) < MatchAt(text, at).value
      && (forall k :: at + SchemeLength(text, at) <= k < at + MatchAt(text, at).value ==> !IsWhitespace(text[k]))
      && (at + MatchAt(text, at).value == |text| || IsWhitespace(text[at + MatchAt(text, at).value]))
  {
    var p := SchemeLength(text, at);
    if 0 < p && at + p < |text| {
      RunLengthShape(text, at + p);
    }
  }

  /** A match begins with the letter `h`, so none begins on whitespace. */
  lemma MatchStartsWithH(text: string, at: nat)
    requires at <= |text| && MatchAt(text, at).Some?
    ensures at < |text| && text[at] == 'h' && !IsWhitespace(text[at])
  {
  }

  /** `urlRegex.exec(text)` with `lastIndex == from`: the leftmost match at
      or after `from`. */
  function Exec(text: string, from: nat): (r: Option<Link>)
    requires from <= |text|
    ensures r.Some? ==>
      && from <= r.value.start < r.value.end <= |text|
      && MatchAt(text, r.value.start) == Some(r.value.end - r.value.start)
      && r.value.url == text[r.value.start..r.value.end] == r.value.text
    decreases |text| - from
  {
    match MatchAt(text, from)
    case Some(n) => Some(Link(text[from..from + n], from, from + n, text[from..from + n]))
    case None => if from == |text| then None else Exec(text, from + 1)
  }

  /** `Exec` finds the leftmost match: none begins between `from` and the
      link it returns, and none at all when it returns nothing. */
  lemma {:induction false} ExecLeftmost(text: string, from: nat)
    requires from <= |text|
    ensures Exec(text, from).Some? ==>
      forall k :: from <= k < Exec(text, from).value.start ==> MatchAt(text, k).None?
    ensures Exec(text, from).None? ==> forall k :: from <= k <= |text| ==> MatchAt(text, k).None?
    decreases |text| - from
  {
    if MatchAt(text, from).None? && from < |text| {
      ExecLeftmost(text, from + 1);
    }
  }

  /** Every match the global pattern finds from `from` onwards, in order:
      each search resumes where the previous match ended. */
  function Links(text: string, from: nat): (links: seq<Link>)
    requires from <= |text|
    ensures 8 * |links| <= |text| - from
    decreases |text| - from
  {
    match Exec(text, from)
    case None => []
    case Some(l) => [l] + Links(text, l.end)
  }

  /** A link record describes a match of the pattern in `text`. */
  predicate IsMatch(text: string, l: Link)
  {
    && l.start < l.end <= |text|
    && MatchAt(text, l.start) == Some(l.end - l.start)
    && l.url == text[l.start..l.end] == l.text
  }

  /** `detectLinks(text)`: run the global pattern until it finds nothing more. */
  method DetectLinks(text: string) returns (matches: seq<Link>)
    ensures matches == Links(text, 0)
  {
    matches := [];
    var lastIndex := 0;
    var found := Exec(text, lastIndex);
    while found.Some?
      invariant lastIndex <= |text|
      invariant found == Exec(text, lastIndex)
      invariant matches + Links(text, lastIndex) == Links(text, 0)
      decreases |text| - lastIndex
    {
      matches := matches + [found.value];
      lastIndex := found.value.end;
      found := Exec(text, lastIndex);
    }
  }

  /** `hasLinks(text)`: the non-global pattern matches somewhere. */
  function HasLinks(text: string): (r: bool)
    ensures r <==> exists k :: 0 <= k <= |text| && MatchAt(text, k).Some?
  {
    var m := Exec(text, 0);
    ExecLeftmost(text, 0);
    assert m.Some? ==> MatchAt(text, m.value.start).Some?;
    m.Some?
  }

  /** Each detected link is a match of the pattern at or after `from`. */
  lemma {:induction false} LinksAreMatches(text: string, from: nat)
    requires from <= |text|
    ensures forall i :: 0 <= i < |Links(text, from)| ==>
      from <= Links(text, from)[i].start && IsMatch(text, Links(text, from)[i])
    decreases |text| - from
  {
    var found := Exec(text, from);
    if found.Some? {
      LinksAreMatches(text, found.value.end);
      assert Links(text, from) == [found.value] + Links(text, found.value.end);
    }
  }

  /** The links come in strictly increasing order, with whitespace between
      one link and the next. */
  lemma {:induction false} LinksIncreasing(text: string, from: nat)
    requires from <= |text|
    ensures forall i, j :: 0 <= i < j < |Links(text, from)| ==>
      Links(text, from)[i].end < Links(text, from)[j].start
    decreases |text| - from
  {
    var found := Exec(text, from);
    if found.Some? {
      var l := found.value;
      var rest := Links(text, l.end);
      LinksIncreasing(text, l.end);
      LinksAreMatches(text, l.end);
      assert Links(text, from) == [l] + rest;
      if |rest| > 0 {
        // the character ending a link is whitespace, so no match starts there
        MatchAtShape(text, l.start);
        MatchStartsWithH(text, rest[0].start);
      }
    }
  }

  /** Every link starts with `http://` or `https://`, has at least one
      character after `://`, holds no whitespace, and is maximal: it runs to
      the end of the text or up to a whitespace character. */
  lemma LinkShape(text: string, l: Link)
    requires IsMatch(text, l)
    ensures StartsWith(l.url, "http://") || StartsWith(l.url, "https://")
    ensures |l.url| > SchemeLength(text, l.start) >= 7
    ensures forall k :: 0 <= k < |l.url| ==> !IsWhitespace(l.url[k])
    ensures l.end == l.start + |l.url|
    ensures l.end == |text| || IsWhitespace(text[l.end])
  {
    MatchAtShape(text, l.start);
    SchemeOccurs(text, l.start);
    var p := SchemeLength(text, l.start);
    assert l.url[..p] == text[l.start..l.start + p];
    forall k | 0 <= k < |l.url|
      ensures !IsWhitespace(l.url[k])
    {
      assert l.url[k] == text[l.start + k];
    }
  }

  /** Position `k` is the start of one of `links` or lies inside it. */
  predicate Covered(links: seq<Link>, k: nat)
  {
    exists i :: 0 <= i < |links| && links[i].start <= k < links[i].end
  }

  /** No match is missed: every position where the pattern matches lies at
      the start of a detected link or inside one. */
  lemma {:induction false} LinksComplete(text: string, from: nat)
    requires from <= |text|
    ensures forall k :: from <= k <= |text| && MatchAt(text, k).Some? ==> Covered(Links(text, from), k)
    decreases |text| - from
  {
    ExecLeftmost(text, from);
    var found := Exec(text, from);
    if found.Some? {
      var l := found.value;
      var all := Links(text, from);
      var rest := Links(text, l.end);
      assert all == [l] + rest;
      LinksComplete(text, l.end);
      forall k | from <= k <= |text| && MatchAt(text, k).Some?
        ensures Covered(all, k)
      {
        if k < l.end {
          assert all[0].start <= k < all[0].end;
        } else {
          assert Covered(rest, k);
          var i :| 0 <= i < |rest| && rest[i].start <= k < rest[i].end;
          assert all[i + 1] == rest[i];
        }
      }
    }
  }

  /** `hasLinks(text)` holds exactly when `detectLinks(text)` finds a link. */
  lemma HasLinksIffDetected(text: string)
    ensures HasLinks(text) <==> |Links(text, 0)| > 0
  {
    if HasLinks(text) {
      var k :| 0 <= k <= |text| && MatchAt(text, k).Some?;
      LinksComplete(text, 0);
      assert Covered(Links(text, 0), k);
    }
  }

  /** The string a part displays. */
  function Shown(p: Part): string
  {
    match p
    case Text(s) => s
    case Anchor(href) => href
  }

  /** The parts' strings, concatenated in order. */
  function Flatten(parts: seq<Part>): string
  {
    if parts == [] then "" else Flatten(parts[..|parts| - 1]) + Shown(parts[|parts| - 1])
  }

  /** The targets of the link parts, in order. */
  function Anchors(parts: seq<Part>): seq<string>
  {
    if parts == [] then []
    else Anchors(parts[..|parts| - 1]) + (if parts[|parts| - 1].Anchor? then [parts[|parts| - 1].href] else [])
  }

  /** The URLs of a list of link records, in order. */
  function Urls(links: seq<Link>): seq<string>
  {
    if links == [] then [] else Urls(links[..|links| - 1]) + [links[|links| - 1].url]
  }

  /** Text parts are never empty and never follow one another. */
  predicate TextsSeparated(parts: seq<Part>)
  {
    if parts == [] then true
    else
      var init, last := parts[..|parts| - 1], parts[|parts| - 1];
      && TextsSeparated(init)
      && (last.Text? ==> last.s != "" && (init == [] || init[|init| - 1].Anchor?))
  }

  /** The link records lie inside `text`, each showing its own stretch of
      it, in strictly increasing order. */
  predicate Spans(text: string, links: seq<Link>)
  {
    && (forall i :: 0 <= i < |links| ==>
          links[i].start < links[i].end <= |text| && links[i].url == text[links[i].start..links[i].end])
    && (forall i, j :: 0 <= i < j < |links| ==> links[i].end < links[j].start)
  }

  /** The detected links satisfy `Spans`. */
  lemma LinksSpan(text: string)
    ensures Spans(text, Links(text, 0))
  {
    LinksAreMatches(text, 0);
    LinksIncreasing(text, 0);
  }

  /** `renderTextWithLinks(text)`; `None` is a missing text. A missing or
      empty text renders as one empty span, a text without links as one span
      holding it; otherwise the parts rebuild the text exactly, the links
      appear in the order `detectLinks` found them, and every text part is a
      non-empty stretch between two links. */
  method RenderTextWithLinks(text: Option<string>) returns (r: Rendered)
    ensures text.None? || text == Some("") ==> r == Whole("")
    ensures text.Some? && text.value != "" && !HasLinks(text.value) ==> r == Whole(text.value)
    ensures text.Some? && HasLinks(text.value) ==>
      && r.Parts?
      && Flatten(r.parts) == text.value
      && Anchors(r.parts) == Urls(Links(text.value, 0))
      && TextsSeparated(r.parts)
  {
    if text.None? || text.value == "" {
      return Whole("");
    }
    var s := text.value;
    var links := DetectLinks(s);
    HasLinksIffDetected(s);
    if |links| == 0 {
      return Whole(s);
    }
    LinksSpan(s);
    var parts := SplitAtLinks(s, links);
    return Parts(parts);
  }

  /** The `forEach` over the links and the trailing text: each link is
      preceded by the text since the previous one, when there is any, and
      the text after the last link closes the list. */
  method SplitAtLinks(s: string, links: seq<Link>) returns (parts: seq<Part>)
    requires Spans(s, links)
    ensures Flatten(parts) == s
    ensures Anchors(parts) == Urls(links)
    ensures TextsSeparated(parts)
  {
    parts := [];
    var lastIndex := 0;
    for i := 0 to |links|
      invariant lastIndex <= |s|
      invariant i == 0 ==> lastIndex == 0 && parts == []
      invariant i > 0 ==> lastIndex == links[i - 1].end && |parts| > 0 && parts[|parts| - 1].Anchor?
      invariant Flatten(parts) == s[..lastIndex]
      invariant Anchors(parts) == Urls(links[..i])
      invariant TextsSeparated(parts)
    {
      SpanAt(s, links, i);
      UrlsSnoc(links, i);
      parts := PushLink(s, parts, lastIndex, links[i]);
      lastIndex := links[i].end;
    }
    assert links[..|links|] == links;
    parts := PushText(s, parts, lastIndex, |s|);
    assert s[..|s|] == s;
  }

  /** One link of a `Spans` list: its own stretch of the text, after the
      end of the link before it. */
  lemma SpanAt(s: string, links: seq<Link>, i: nat)
    requires Spans(s, links) && i < |links|
    ensures links[i].start < links[i].end <= |s| && links[i].url == s[links[i].start..links[i].end]
    ensures i > 0 ==> links[i - 1].end < links[i].start
  {
    if i > 0 {
      assert links[i - 1].end < links[i].start;
    }
  }

  /** The URLs of one more link record. */
  lemma UrlsSnoc(links: seq<Link>, i: nat)
    requires i < |links|
    ensures Urls(links[..i + 1]) == Urls(links[..i]) + [links[i].url]
  {
    assert links[..i + 1][..i] == links[..i];
  }

  /** What appending one part does to the displayed text, the link targets
      and the separation of text parts. */
  lemma AppendPart(parts: seq<Part>, p: Part)
    ensures Flatten(parts + [p]) == Flatten(parts) + Shown(p)
    ensures Anchors(parts + [p]) == Anchors(parts) + (if p.Anchor? then [p.href] else [])
    ensures TextsSeparated(parts + [p]) <==>
      TextsSeparated(parts) && (p.Text? ==> p.s != "" && (parts == [] || parts[|parts| - 1].Anchor?))
  {
    assert (parts + [p])[..|parts|] == parts;
  }

  /** The text from `lastIndex` up to `upTo`, when there is any, as one
      more part after a link (or at the start). */
  function PushText(s: string, parts: seq<Part>, lastIndex: nat, upTo: nat): (r: seq<Part>)
    requires lastIndex <= upTo <= |s|
    requires Flatten(parts) == s[..lastIndex] && TextsSeparated(parts)
    requires parts == [] || parts[|parts| - 1].Anchor?
    ensures Flatten(r) == s[..upTo]
    ensures Anchors(r) == Anchors(parts)
    ensures TextsSeparated(r)
  {
    if upTo > lastIndex then
      AppendPart(parts, Text(s[lastIndex..upTo]));
      SliceJoin(s, lastIndex, upTo);
      parts + [Text(s[lastIndex..upTo])]
    else
      parts
  }

  /** One turn of the `forEach` over the links: the text since `lastIndex`
      when there is any, then the link itself. */
  function PushLink(s: string, parts: seq<Part>, lastIndex: nat, link: Link): (r: seq<Part>)
    requires lastIndex <= link.start < link.end <= |s| && link.url == s[link.start..link.end]
    requires Flatten(parts) == s[..lastIndex] && TextsSeparated(parts)
    requires parts == [] || parts[|parts| - 1].Anchor?
    ensures Flatten(r) == s[..link.end]
    ensures Anchors(r) == Anchors(parts) + [link.url]
    ensures TextsSeparated(r) && |r| > 0 && r[|r| - 1].Anchor?
  {
    var before := PushText(s, parts, lastIndex, link.start);
    AppendPart(before, Anchor(link.url));
    SliceJoin(s, link.start, link.end);
    before + [Anchor(link.url)]
  }

  /** A prefix followed by the next stretch is the longer prefix. */
  lemma SliceJoin(s: string, i: nat, j: nat)
    requires i <= j <= |s|
    ensures s[..i] + s[i..j] == s[..j]
  {
  }
}
