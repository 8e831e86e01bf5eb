/** Scraping of the DIDL-Lite track metadata a Sonos player reports: each
    field is the text between the first matching pair of tags, found the way
    the regular expression `/<tag>(.*?)<\/tag>/` finds it, with the five
    predefined entities of XML 1.0 (section 4.6) unescaped afterwards. */
module Metadata {
  import opened Wrappers
  import opened Text
  import opened Json

  /** `null`, an object of the fields found, or the input string itself when none was found. */
  datatype Parsed = Null | Fields(fields: map<string, string>) | Raw(xml: string)

  /** `v` is what the regular expression captures when it is tried at index
      `i`: the opening tag at `i`, then the shortest run of characters other
      than line terminators that is followed by the closing tag. */
  ghost predicate IsMatchAt(s: string, open: string, close: string, i: nat, v: string) {
    var start := i + |open|;
    && OccursAt(s, open, i)
    && start + |v| <= |s|
    && s[start..start + |v|] == v
    && OccursAt(s, close, start + |v|)
    && (forall k | start <= k < start + |v| :: !IsLineTerminator(s[k]) && !OccursAt(s, close, k))
  }

  /** Every closing tag at or after `j` comes after a line terminator that starts at or after `j`. */
  predicate Blocked(s: string, close: string, j: nat) {
    forall e | j <= e <= |s| :: OccursAt(s, close, e) ==> exists k | j <= k < e :: IsLineTerminator(s[k])
  }

  /** The lazy `(.*?)` loop: from `j`, stop at the first closing tag, give up at a line terminator or the end. */
  function ScanToClose(s: string, close: string, start: nat, j: nat): (r: Option<string>)
    requires |close| > 0
    requires start <= j <= |s|
    requires forall k | start <= k < j :: !IsLineTerminator(s[k]) && !OccursAt(s, close, k)
    ensures r.Some? ==>
      && start + |r.value| <= |s| && s[start..start + |r.value|] == r.value
      && OccursAt(s, close, start + |r.value|)
      && (forall k | start <= k < start + |r.value| :: !IsLineTerminator(s[k]) && !OccursAt(s, close, k))
    ensures r.None? ==> Blocked(s, close, j)
    decreases |s| - j
  {
    if OccursAt(s, close, j) then Some(s[start..j])
    else if j == |s| || IsLineTerminator(s[j]) then
      BlockedHere(s, close, j);
      None
    else
      var r := ScanToClose(s, close, start, j + 1);
      if r.None? then
        BlockedBefore(s, close, j);
        r
      else r
  }

  /** The end of the input, or a line terminator, blocks every closing tag after it. */
  lemma BlockedHere(s: string, close: string, j: nat)
    requires |close| > 0 && j <= |s| && !OccursAt(s, close, j)
    requires j == |s| || IsLineTerminator(s[j])
    ensures Blocked(s, close, j)
  {
    forall e | j <= e <= |s| && OccursAt(s, close, e) ensures exists k | j <= k < e :: IsLineTerminator(s[k]) {
      assert e != j;
      assert IsLineTerminator(s[j]);
    }
  }

  /** A position holding no closing tag extends the block one step back. */
  lemma BlockedBefore(s: string, close: string, j: nat)
    requires j < |s| && !OccursAt(s, close, j) && Blocked(s, close, j + 1)
    ensures Blocked(s, close, j)
  {
    forall e | j <= e <= |s| && OccursAt(s, close, e) ensures exists k | j <= k < e :: IsLineTerminator(s[k]) {
      assert e != j;
      var k :| j + 1 <= k < e && IsLineTerminator(s[k]);
    }
  }

  /** The match attempt at index `i`. */
  function MatchAt(s: string, open: string, close: string, i: nat): (r: Option<string>)
    requires |close| > 0
    ensures r.Some? ==> IsMatchAt(s, open, close, i, r.value)
    ensures r.None? ==> forall v :: !IsMatchAt(s, open, close, i, v)
  {
    if OccursAt(s, open, i) then
      var r := ScanToClose(s, close, i + |open|, i + |open|);
      r
    else None
  }

  /** `s.match(re)[1]`: the capture of the leftmost index, from `i` on, where the expression matches. */
  function FirstMatchFrom(s: string, open: string, close: string, i: nat): (r: Option<string>)
    requires |close| > 0
    ensures r.Some? ==> exists p: nat | i <= p <= |s| ::
      (IsMatchAt(s, open, close, p, r.value) && forall q: nat, v | i <= q < p :: !IsMatchAt(s, open, close, q, v))
    ensures r.None? ==> forall q: nat, v | i <= q :: !IsMatchAt(s, open, close, q, v)
    decreases |s| + 1 - i
  {
    var m := MatchAt(s, open, close, i);
    if m.Some? then
      assert IsMatchAt(s, open, close, i, m.value);
      m
    else if i >= |s| then
      assert forall q: nat, v | i < q :: !IsMatchAt(s, open, close, q, v);
      None
    else FirstMatchFrom(s, open, close, i + 1)
  }

  /** The chained `.replace` calls, in the source's order: `&amp;` first, so
      that an escaped entity such as `&amp;lt;` is unescaped twice. */
  function Unescape(v: string): (r: string)
    ensures |r| <= |v|
    ensures '&' !in v ==> r == v
  {
    var s1 := ReplaceAll(v, "&amp;", "&");
    var s2 := ReplaceAll(s1, "&lt;", "<");
    var s3 := ReplaceAll(s2, "&gt;", ">");
    var s4 := ReplaceAll(s3, "&quot;", "\"");
    var s5 := ReplaceAll(s4, "&apos;", "'");
    ReplaceAllNotLonger(v, "&amp;", "&");
    ReplaceAllNotLonger(s1, "&lt;", "<");
    ReplaceAllNotLonger(s2, "&gt;", ">");
    ReplaceAllNotLonger(s3, "&quot;", "\"");
    ReplaceAllNotLonger(s4, "&apos;", "'");
    if '&' !in v then
      ReplaceAllIdentity(v, "&amp;", "&");
      ReplaceAllIdentity(s1, "&lt;", "<");
      ReplaceAllIdentity(s2, "&gt;", ">");
      ReplaceAllIdentity(s3, "&quot;", "\"");
      ReplaceAllIdentity(s4, "&apos;", "'");
      s5
    else s5
  }

  /** An escaped escape is undone twice: `&amp;lt;` unescapes to `<`. */
  lemma UnescapeTwice()
    ensures Unescape("&amp;lt;") == "<"
  {
    assert ReplaceAll("&amp;lt;", "&amp;", "&") == "&lt;" by {
      assert "&amp;lt;"[..5] == "&amp;";
      assert "&amp;lt;"[5..] == "lt;";
    }
    assert ReplaceAll("&lt;", "&lt;", "<") == "<" by {
      assert "&lt;"[..4] == "&lt;";
    }
    ReplaceAllIdentity("<", "&gt;", ">");
    ReplaceAllIdentity("<", "&quot;", "\"");
    ReplaceAllIdentity("<", "&apos;", "'");
  }

  /** The value recorded for one field, if its capture is non-empty. */
  function Field(xml: string, open: string, close: string): Option<string>
    requires |close| > 0
  {
    var m := FirstMatchFrom(xml, open, close, 0);
    if m.Some? && |m.value| > 0 then Some(Unescape(m.value)) else None
  }

  function Put(m: map<string, string>, key: string, f: Option<string>): map<string, string> {
    if f.Some? then m[key := f.value] else m
  }

  const TitleTags := ("<dc:title>", "</dc:title>")
  const ArtistTags := ("<dc:creator>", "</dc:creator>")
  const AlbumTags := ("<upnp:album>", "</upnp:album>")
  const DurationTags := ("<duration>", "</duration>")

  function TitleField(xml: string): Option<string> { Field(xml, TitleTags.0, TitleTags.1) }
  function ArtistField(xml: string): Option<string> { Field(xml, ArtistTags.0, ArtistTags.1) }
  function AlbumField(xml: string): Option<string> { Field(xml, AlbumTags.0, AlbumTags.1) }
  function DurationField(xml: string): Option<string> { Field(xml, DurationTags.0, DurationTags.1) }

  /** The object holding each found field under its key. */
  function Record(title: Option<string>, artist: Option<string>, album: Option<string>, duration: Option<string>): (m: map<string, string>)
    ensures m.Keys <= {"title", "Artist", "Album", "Duration"}
    ensures ("title" in m <==> title.Some?) && ("title" in m ==> m["title"] == title.value)
    ensures ("Artist" in m <==> artist.Some?) && ("Artist" in m ==> m["Artist"] == artist.value)
    ensures ("Album" in m <==> album.Some?) && ("Album" in m ==> m["Album"] == album.value)
    ensures ("Duration" in m <==> duration.Some?) && ("Duration" in m ==> m["Duration"] == duration.value)
    ensures |m| == 0 <==> title.None? && artist.None? && album.None? && duration.None?
  {
    var m := Put(Put(Put(Put(map[], "title", title), "Artist", artist), "Album", album), "Duration", duration);
    assert title.Some? ==> "title" in m;
    m
  }

  /** `parseMetadata(xml)`. */
  function ParseMetadata(xml: string): (r: Parsed)
    ensures r == Null <==> xml == ""
    ensures r.Fields? ==> r.fields.Keys <= {"title", "Artist", "Album", "Duration"} && |r.fields| > 0
    ensures r.Fields? ==>
      && ("title" in r.fields <==> TitleField(xml).Some?)
      && ("Artist" in r.fields <==> ArtistField(xml).Some?)
      && ("Album" in r.fields <==> AlbumField(xml).Some?)
      && ("Duration" in r.fields <==> DurationField(xml).Some?)
      && ("title" in r.fields ==> r.fields["title"] == TitleField(xml).value)
      && ("Artist" in r.fields ==> r.fields["Artist"] == ArtistField(xml).value)
      && ("Album" in r.fields ==> r.fields["Album"] == AlbumField(xml).value)
      && ("Duration" in r.fields ==> r.fields["Duration"] == DurationField(xml).value)
    ensures r.Raw? <==> xml != "" && TitleField(xml).None? && ArtistField(xml).None? && AlbumField(xml).None? && DurationField(xml).None?
    ensures r.Raw? ==> r.xml == xml
  {
    if xml == "" then Null
    else
      var m := Record(TitleField(xml), ArtistField(xml), AlbumField(xml), DurationField(xml));
      if |m| > 0 then Fields(m) else Raw(xml)
  }

  /** A field is recorded exactly when its tags enclose non-empty text
      on one line, and the recorded value is that text unescaped. */
  lemma FieldIsFirstCapture(xml: string, open: string, close: string)
    requires |close| > 0
    ensures Field(xml, open, close).Some? <==>
      exists p: nat, v | p <= |xml| ::
        (IsMatchAt(xml, open, close, p, v) && |v| > 0 && forall q: nat, w | q < p :: !IsMatchAt(xml, open, close, q, w))
    ensures Field(xml, open, close).Some? ==>
      exists p: nat, v | p <= |xml| :: IsMatchAt(xml, open, close, p, v) && Field(xml, open, close).value == Unescape(v)
  {
    var m := FirstMatchFrom(xml, open, close, 0);
    if m.None? {
      assert forall q: nat, v | 0 <= q :: !IsMatchAt(xml, open, close, q, v);
    } else {
      var p: nat :| p <= |xml| && IsMatchAt(xml, open, close, p, m.value)
        && forall q: nat, v | 0 <= q < p :: !IsMatchAt(xml, open, close, q, v);
      forall p': nat, v | p' <= |xml| && IsMatchAt(xml, open, close, p', v)
        && (forall q: nat, w | q < p' :: !IsMatchAt(xml, open, close, q, w))
        ensures v == m.value
      {
        assert p' == p;
        MatchIsUnique(xml, open, close, p, v, m.value);
      }
    }
  }

  /** At a given index the regular expression captures at most one text. */
  lemma MatchIsUnique(s: string, open: string, close: string, i: nat, v: string, w: string)
    requires IsMatchAt(s, open, close, i, v) && IsMatchAt(s, open, close, i, w)
    ensures v == w
  {
    assert |v| == |w|;
  }

  /** The JSON the `/state` route reports as `trackMetaData`. */
  function AsJson(p: Parsed): Value {
    match p
    case Null => JNull
    case Raw(xml) => JStr(xml)
    case Fields(m) => JObj(map k | k in m :: JStr(m[k]))
  }
}
