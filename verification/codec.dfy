/** The JSON form of photo records, at the level of JSON values: the coding
    that `Codable` synthesizes for the record from its coding keys, used by the
    network listing and by the persisted collection. Text and bytes are not
    modelled; a blob in storage is a JSON value. */
module Codec {
  import opened PhotoModel

  datatype Json =
    | JNull
    | JBool(b: bool)
    | JNumber(n: int)
    | JString(s: string)
    | JArray(items: seq<Json>)
    | JObject(members: seq<(string, Json)>)

  /** The value of the first member named `name`. Which of two members with
      one name is read is this model's choice. */
  function Lookup(members: seq<(string, Json)>, name: string): (r: Option<Json>)
    ensures r.Some? ==> exists i :: 0 <= i < |members| && members[i] == (name, r.value)
    ensures r.None? ==> forall i :: 0 <= i < |members| ==> members[i].0 != name
  {
    if members == [] then None
    else if members[0].0 == name then Some(members[0].1)
    else Lookup(members[1..], name)
  }

  /** `decode(String.self, forKey:)`: fails when the key is missing or the
      value is not a string. */
  function DecodeString(members: seq<(string, Json)>, k: CodingKeys): Option<string>
  {
    match Lookup(members, StringValue(k))
    case Some(JString(s)) => Some(s)
    case _ => None
  }

  /** `decode(Int.self, forKey:)`: fails when the key is missing, the value is
      not a number, or the number does not fit in an `Int`. */
  function DecodeInt(members: seq<(string, Json)>, k: CodingKeys): Option<Int64>
  {
    match Lookup(members, StringValue(k))
    case Some(JNumber(n)) =>
      if -0x8000_0000_0000_0000 <= n < 0x8000_0000_0000_0000 then Some(n as Int64) else None
    case _ => None
  }

  /** The two fields of type `Int`; the other four are strings. */
  predicate IsIntField(k: CodingKeys)
  {
    k == Width || k == Height
  }

  /** The JSON value a field of the record is written as. */
  function FieldJson(p: Photos, k: CodingKeys): Json
  {
    match k
    case Id => JString(p.id)
    case Author => JString(p.author)
    case Width => JNumber(p.width as int)
    case Height => JNumber(p.height as int)
    case Url => JString(p.url)
    case DownloadUrl => JString(p.downloadUrl)
  }

  /** The member a key names is present and holds a value of the field's
      type: a string, or a number in the range of `Int`. */
  predicate Readable(members: seq<(string, Json)>, k: CodingKeys)
  {
    match Lookup(members, StringValue(k))
    case Some(JString(_)) => !IsIntField(k)
    case Some(JNumber(n)) => IsIntField(k) && -0x8000_0000_0000_0000 <= n < 0x8000_0000_0000_0000
    case _ => false
  }

  /** The coding keys in the order the model writes their members. */
  const Keys: seq<CodingKeys> := [Id, Author, Width, Height, Url, DownloadUrl]

  /** The members of an encoded record: one per coding key, under its JSON name. */
  function Fields(p: Photos): seq<(string, Json)>
  {
    seq(|Keys|, i requires 0 <= i < |Keys| => (StringValue(Keys[i]), FieldJson(p, Keys[i])))
  }

  /** The synthesized `encode(to:)`: every field is written under the JSON name
      of its coding key, and nothing else is written. The order of the members
      is this model's choice. */
  function EncodePhoto(p: Photos): (j: Json)
    ensures j.JObject? && |j.members| == 6
    ensures forall k :: Lookup(j.members, StringValue(k)) == Some(FieldJson(p, k))
  {
    LookupFields(p);
    JObject(Fields(p))
  }

  /** The synthesized `init(from:)`: it succeeds exactly on an object in which
      every coding key names a member of the field's type, and then every
      field holds the value found under its key. Members under other names
      are ignored. */
  function DecodePhoto(j: Json): (r: Option<Photos>)
    ensures r.Some? <==> j.JObject? && forall k :: Readable(j.members, k)
    ensures r.Some? ==> forall k :: Lookup(j.members, StringValue(k)) == Some(FieldJson(r.value, k))
  {
    match j
    case JObject(ms) =>
      ReadableIffDecodes(ms);
      (match (DecodeString(ms, Id), DecodeString(ms, Author), DecodeInt(ms, Width),
              DecodeInt(ms, Height), DecodeString(ms, Url), DecodeString(ms, DownloadUrl))
       case (Some(id), Some(author), Some(w), Some(h), Some(url), Some(dl)) =>
         DecodedFields(ms, Photos(id, author, w, h, url, dl));
         Some(Photos(id, author, w, h, url, dl))
       case _ => None)
    case _ => None
  }

  /** Encoding a `[Photos]`: a JSON array of the encoded records, in order. */
  function EncodeList(xs: seq<Photos>): Json
  {
    JArray(seq(|xs|, i requires 0 <= i < |xs| => EncodePhoto(xs[i])))
  }

  function DecodeItems(items: seq<Json>): (r: Option<seq<Photos>>)
    ensures r.Some? ==> |r.value| == |items|
    ensures r.Some? ==> forall i :: 0 <= i < |items| ==> DecodePhoto(items[i]) == Some(r.value[i])
    ensures r.None? ==> exists i :: 0 <= i < |items| && DecodePhoto(items[i]).None?
  {
    if items == [] then Some([])
    else
      match (DecodePhoto(items[0]), DecodeItems(items[1..]))
      case (Some(p), Some(ps)) => Some([p] + ps)
      case (None, _) => None
      case (_, None) => None
  }

  /** Decoding a `[Photos]`: fails unless the value is an array every element
      of which decodes. */
  function DecodeList(j: Json): Option<seq<Photos>>
  {
    match j
    case JArray(items) => DecodeItems(items)
    case _ => None
  }

  /** A record encoded and decoded again is the same record. */
  lemma DecodeEncodePhoto(p: Photos)
    ensures DecodePhoto(EncodePhoto(p)) == Some(p)
  {
    var j := EncodePhoto(p);
    FieldsReadable(j.members, p);
    var r := DecodePhoto(j);
    FieldJsonInjective(r.value, p);
  }

  /** Members that hold every field of a record under its key are readable. */
  lemma FieldsReadable(ms: seq<(string, Json)>, p: Photos)
    requires forall k :: Lookup(ms, StringValue(k)) == Some(FieldJson(p, k))
    ensures forall k :: Readable(ms, k)
  {
    forall k ensures Readable(ms, k) {
      assert Lookup(ms, StringValue(k)) == Some(FieldJson(p, k));
    }
  }

  /** A record is determined by the values of its fields. */
  lemma FieldJsonInjective(p: Photos, q: Photos)
    requires forall k :: FieldJson(p, k) == FieldJson(q, k)
    ensures p == q
  {
    assert FieldJson(p, Id) == FieldJson(q, Id) && FieldJson(p, Author) == FieldJson(q, Author);
    assert FieldJson(p, Width) == FieldJson(q, Width) && FieldJson(p, Height) == FieldJson(q, Height);
    assert FieldJson(p, Url) == FieldJson(q, Url) && FieldJson(p, DownloadUrl) == FieldJson(q, DownloadUrl);
  }

  /** Where each key's member sits among the encoded members. */
  function KeyIndex(k: CodingKeys): (i: nat)
    ensures i < |Keys| && Keys[i] == k
  {
    match k
    case Id => 0
    case Author => 1
    case Width => 2
    case Height => 3
    case Url => 4
    case DownloadUrl => 5
  }

  /** Each key finds its own member among the encoded members: no earlier
      member carries its name. */
  lemma LookupFields(p: Photos)
    ensures forall k :: Lookup(Fields(p), StringValue(k)) == Some(FieldJson(p, k))
  {
    var ms := Fields(p);
    forall k ensures Lookup(ms, StringValue(k)) == Some(FieldJson(p, k)) {
      forall i | 0 <= i < KeyIndex(k) ensures ms[i].0 != StringValue(k) {
        CodingKeysInjective(Keys[i], k);
      }
      LookupSkips(ms, StringValue(k), KeyIndex(k));
    }
  }

  /** Every key is readable exactly when each of the six field decodings succeeds. */
  lemma ReadableIffDecodes(ms: seq<(string, Json)>)
    ensures (forall k :: Readable(ms, k)) <==>
              && DecodeString(ms, Id).Some? && DecodeString(ms, Author).Some?
              && DecodeInt(ms, Width).Some? && DecodeInt(ms, Height).Some?
              && DecodeString(ms, Url).Some? && DecodeString(ms, DownloadUrl).Some?
  {
    forall k ensures Readable(ms, k) <==> Decodes(ms, k) {
      ReadableIffDecodesKey(ms, k);
    }
    assert Decodes(ms, Id) && Decodes(ms, Author) && Decodes(ms, Width)
        && Decodes(ms, Height) && Decodes(ms, Url) && Decodes(ms, DownloadUrl)
        ==> forall k :: Decodes(ms, k);
  }

  /** The decoding of the key's field succeeds. */
  predicate Decodes(ms: seq<(string, Json)>, k: CodingKeys)
  {
    if IsIntField(k) then DecodeInt(ms, k).Some? else DecodeString(ms, k).Some?
  }

  lemma ReadableIffDecodesKey(ms: seq<(string, Json)>, k: CodingKeys)
    ensures Readable(ms, k) <==> Decodes(ms, k)
  {
  }

  /** The record built from six successful field decodings holds, under each
      key, the value found there. */
  lemma DecodedFields(ms: seq<(string, Json)>, p: Photos)
    ensures && DecodeString(ms, Id) == Some(p.id) && DecodeString(ms, Author) == Some(p.author)
            && DecodeInt(ms, Width) == Some(p.width) && DecodeInt(ms, Height) == Some(p.height)
            && DecodeString(ms, Url) == Some(p.url) && DecodeString(ms, DownloadUrl) == Some(p.downloadUrl)
            ==> forall k :: Lookup(ms, StringValue(k)) == Some(FieldJson(p, k))
  {
    forall k | DecodeString(ms, Id) == Some(p.id) && DecodeString(ms, Author) == Some(p.author)
            && DecodeInt(ms, Width) == Some(p.width) && DecodeInt(ms, Height) == Some(p.height)
            && DecodeString(ms, Url) == Some(p.url) && DecodeString(ms, DownloadUrl) == Some(p.downloadUrl)
      ensures Lookup(ms, StringValue(k)) == Some(FieldJson(p, k))
    {
      match k
      case Id =>
      case Author =>
      case Width =>
      case Height =>
      case Url =>
      case DownloadUrl =>
    }
  }

  /** The first member with a name is the one `Lookup` finds. */
  lemma {:induction false} LookupSkips(members: seq<(string, Json)>, name: string, n: nat)
    requires n < |members| && members[n].0 == name
    requires forall i :: 0 <= i < n ==> members[i].0 != name
    ensures Lookup(members, name) == Some(members[n].1)
  {
    if n > 0 {
      LookupSkips(members[1..], name, n - 1);
    }
  }

  /** What is written for a collection is read back as the same collection. */
  lemma {:induction false} DecodeEncodeList(xs: seq<Photos>)
    ensures DecodeList(EncodeList(xs)) == Some(xs)
  {
    DecodeEncodeItems(xs);
  }

  lemma {:induction false} DecodeEncodeItems(xs: seq<Photos>)
    ensures DecodeItems(EncodeList(xs).items) == Some(xs)
  {
    if xs != [] {
      var items := EncodeList(xs).items;
      assert items[1..] == EncodeList(xs[1..]).items;
      DecodeEncodePhoto(xs[0]);
      DecodeEncodeItems(xs[1..]);
      assert [xs[0]] + xs[1..] == xs;
    }
  }
}
