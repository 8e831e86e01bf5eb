/** The request schemas as predicates over parsed JSON, and the parse that
    accepts a valid object and strips the keys the schema does not declare.
    Lengths count characters, which agree with the UTF-16 code units Zod
    counts for text within the Basic Multilingual Plane. The URL check
    of the cover field is a parameter. */
module Schemas {
  import opened Wrappers
  import opened Json
  import opened Text

  datatype Schema = AlbumS | AlbumUpdateS | VolumeS | VolumeAdjustmentS | PlayS | SearchQueryS

  /** The keys each schema declares, in declaration order. */
  function DeclaredKeys(schema: Schema): seq<string> {
    match schema
    case AlbumS => ["title", "artist", "uri", "coverUrl", "type", "deviceNames"]
    case AlbumUpdateS => ["title", "artist", "uri", "coverUrl", "type", "deviceNames"]
    case VolumeS => ["volume"]
    case VolumeAdjustmentS => ["adjustment"]
    case PlayS => ["uri"]
    case SearchQueryS => ["q"]
  }

  function Field(v: Value, key: string): Option<Value> {
    if v.JObj? && key in v.fields then Some(v.fields[key]) else None
  }

  predicate IsInt(v: Value) {
    v.JNum? && v.n.Floor as real == v.n
  }

  predicate IntBetween(v: Value, lo: int, hi: int) {
    IsInt(v) && lo as real <= v.n <= hi as real
  }

  predicate StringBetween(v: Value, lo: nat, hi: nat) {
    v.JStr? && lo <= |v.s| <= hi
  }

  /** The check a present album field must pass. */
  predicate AlbumFieldOk(key: string, v: Value, isUrl: string -> bool) {
    if key == "title" then StringBetween(v, 1, 200)
    else if key == "artist" then StringBetween(v, 0, 200)
    else if key == "uri" then v.JStr? && StartsWith(v.s, "spotify:")
    else if key == "coverUrl" then v.JStr? && (isUrl(v.s) || v.s == "")
    else if key == "type" then v.JStr? && v.s in {"album", "artist", "playlist"}
    else if key == "deviceNames" then v.JArr? && forall i | 0 <= i < |v.items| :: v.items[i].JStr?
    else true
  }

  /** The album fields that may be left out: all but title and uri. */
  predicate Optional(schema: Schema, key: string) {
    schema == AlbumUpdateS || key !in {"title", "uri"}
  }

  /** Whether one declared key of the schema is acceptable in `v`. */
  predicate KeyOk(schema: Schema, v: Value, key: string, isUrl: string -> bool) {
    var f := Field(v, key);
    match schema
    case AlbumS => if f.None? then Optional(schema, key) else AlbumFieldOk(key, f.value, isUrl)
    case AlbumUpdateS => f.None? || AlbumFieldOk(key, f.value, isUrl)
    case VolumeS => f.Some? && IntBetween(f.value, 0, 100)
    case VolumeAdjustmentS => f.Some? && IntBetween(f.value, -100, 100)
    case PlayS => f.Some? && AlbumFieldOk("uri", f.value, isUrl)
    case SearchQueryS => f.Some? && StringBetween(f.value, 1, 100)
  }

  /** The declared keys that fail their check, in declaration order. */
  function FailingKeys(schema: Schema, v: Value, isUrl: string -> bool): (r: seq<string>)
    ensures forall k | k in r :: k in DeclaredKeys(schema) && !KeyOk(schema, v, k, isUrl)
    ensures forall k | k in DeclaredKeys(schema) && !KeyOk(schema, v, k, isUrl) :: k in r
  {
    FailingAmong(DeclaredKeys(schema), schema, v, isUrl)
  }

  function FailingAmong(keys: seq<string>, schema: Schema, v: Value, isUrl: string -> bool): (r: seq<string>)
    ensures forall k | k in r :: k in keys && !KeyOk(schema, v, k, isUrl)
    ensures forall k | k in keys && !KeyOk(schema, v, k, isUrl) :: k in r
  {
    if |keys| == 0 then []
    else
      var rest := FailingAmong(keys[1..], schema, v, isUrl);
      if KeyOk(schema, v, keys[0], isUrl) then rest else [keys[0]] + rest
  }

  /** The input is an object and every declared key passes. */
  predicate Valid(schema: Schema, v: Value, isUrl: string -> bool) {
    v.JObj? && forall k | k in DeclaredKeys(schema) :: KeyOk(schema, v, k, isUrl)
  }

  /** The input with only the declared keys kept. */
  function Strip(schema: Schema, v: Value): (r: Value)
    requires v.JObj?
    ensures r.JObj? && r.fields.Keys <= set k | k in DeclaredKeys(schema)
    ensures forall k | k in DeclaredKeys(schema) :: Field(r, k) == Field(v, k)
  {
    JObj(map k | k in v.fields.Keys && k in DeclaredKeys(schema) :: v.fields[k])
  }

  /** `schema.parse`: the stripped object, or the failing keys (none when the input is not an object). */
  function Parse(schema: Schema, v: Value, isUrl: string -> bool): (r: Result<Value, seq<string>>)
    ensures r.Success? <==> Valid(schema, v, isUrl)
    ensures r.Failure? && v.JObj? ==> |r.error| > 0 && forall k | k in r.error :: !KeyOk(schema, v, k, isUrl)
    ensures r.Success? ==> v.JObj? && r.value == Strip(schema, v)
    ensures r.Failure? && v.JObj? ==> r.error == FailingKeys(schema, v, isUrl)
  {
    if !v.JObj? then Failure([])
    else
      var failing := FailingKeys(schema, v, isUrl);
      if |failing| == 0 then Success(Strip(schema, v))
      else
        assert failing[0] in failing;
        Failure(failing)
  }

  /** What a schema accepts, it accepts again after stripping: parsing is idempotent. */
  lemma ParseIdempotent(schema: Schema, v: Value, isUrl: string -> bool)
    requires Parse(schema, v, isUrl).Success?
    ensures Parse(schema, Parse(schema, v, isUrl).value, isUrl) == Parse(schema, v, isUrl)
  {
    var s := Strip(schema, v);
    assert Valid(schema, s, isUrl) by {
      forall k | k in DeclaredKeys(schema) ensures KeyOk(schema, s, k, isUrl) {
        SameFieldSameCheck(schema, s, v, k, isUrl);
      }
    }
    StripTwice(schema, v);
  }

  /** A key's check looks at that key's field only. */
  lemma SameFieldSameCheck(schema: Schema, a: Value, b: Value, key: string, isUrl: string -> bool)
    requires Field(a, key) == Field(b, key)
    ensures KeyOk(schema, a, key, isUrl) == KeyOk(schema, b, key, isUrl)
  {
  }

  /** Stripping an object already stripped changes nothing. */
  lemma StripTwice(schema: Schema, v: Value)
    requires v.JObj?
    ensures Strip(schema, Strip(schema, v)) == Strip(schema, v)
  {
    var s := Strip(schema, v);
    assert Strip(schema, s).fields == s.fields;
  }

  /** A full album is a valid update, and a valid update holding title and
      uri is a full album: the update schema is the album schema with every
      field optional. */
  lemma UpdateIsPartialAlbum(v: Value, isUrl: string -> bool)
    ensures Valid(AlbumS, v, isUrl) <==>
      Valid(AlbumUpdateS, v, isUrl) && Field(v, "title").Some? && Field(v, "uri").Some?
  {
    if Valid(AlbumUpdateS, v, isUrl) && Field(v, "title").Some? && Field(v, "uri").Some? {
      assert forall k | k in DeclaredKeys(AlbumS) :: KeyOk(AlbumS, v, k, isUrl) by {
        forall k | k in DeclaredKeys(AlbumS) ensures KeyOk(AlbumS, v, k, isUrl) {
          assert KeyOk(AlbumUpdateS, v, k, isUrl);
        }
      }
    }
    if Valid(AlbumS, v, isUrl) {
      assert KeyOk(AlbumS, v, "title", isUrl) && KeyOk(AlbumS, v, "uri", isUrl);
      forall k | k in DeclaredKeys(AlbumUpdateS) ensures KeyOk(AlbumUpdateS, v, k, isUrl) {
        assert KeyOk(AlbumS, v, k, isUrl);
      }
    }
  }

  /** The empty object is a valid update. */
  lemma EmptyUpdateIsValid(isUrl: string -> bool)
    ensures Valid(AlbumUpdateS, JObj(map[]), isUrl)
  {
  }

  /** A valid album's uri is also a valid play request. */
  lemma AlbumUriIsPlayable(v: Value, isUrl: string -> bool)
    requires Valid(AlbumS, v, isUrl)
    ensures Valid(PlayS, v, isUrl)
  {
    assert KeyOk(AlbumS, v, "uri", isUrl);
  }

  /** Volumes 0 and 100 are accepted, -1, 101 and 50.5 are not. */
  lemma VolumeBounds(isUrl: string -> bool)
    ensures Valid(VolumeS, JObj(map["volume" := JNum(0.0)]), isUrl)
    ensures Valid(VolumeS, JObj(map["volume" := JNum(100.0)]), isUrl)
    ensures !Valid(VolumeS, JObj(map["volume" := JNum(-1.0)]), isUrl)
    ensures !Valid(VolumeS, JObj(map["volume" := JNum(101.0)]), isUrl)
    ensures !Valid(VolumeS, JObj(map["volume" := JNum(50.5)]), isUrl)
  {
    assert KeyOk(VolumeS, JObj(map["volume" := JNum(-1.0)]), "volume", isUrl) == false;
    assert KeyOk(VolumeS, JObj(map["volume" := JNum(101.0)]), "volume", isUrl) == false;
    assert KeyOk(VolumeS, JObj(map["volume" := JNum(50.5)]), "volume", isUrl) == false;
  }
}
