/**
 * The Facebook Graph API response mapper: turns the nested post objects of a
 * `{'data': [...]}` response into flat post records, skipping any post whose
 * mapping raises.
 */
module FacebookClient {
  import opened Common
  import opened Frames

  /** A decoded JSON value as Python holds it; a dict keeps its entries in insertion order. */
  datatype Json =
    | JNull
    | JBool(b: bool)
    | JInt(n: int)
    | JStr(s: string)
    | JList(items: seq<Json>)
    | JDict(entries: seq<(string, Json)>)

  /** Python truthiness. */
  predicate Truthy(j: Json)
  {
    match j
    case JNull => false
    case JBool(b) => b
    case JInt(n) => n != 0
    case JStr(s) => s != ""
    case JList(items) => items != []
    case JDict(entries) => entries != []
  }

  /** `d[key]` when the key is present; None when it is not (a KeyError). */
  function Get(entries: seq<(string, Json)>, key: string): (r: Option<Json>)
    ensures r.None? <==> forall i :: 0 <= i < |entries| ==> entries[i].0 != key
    ensures r.Some? ==> exists i :: 0 <= i < |entries| && entries[i] == (key, r.value)
  {
    if entries == [] then None
    else if entries[0].0 == key then Some(entries[0].1)
    else
      var r := Get(entries[1..], key);
      assert forall i :: 0 < i < |entries| ==> entries[1..][i - 1] == entries[i];
      r
  }

  /** `d.get(key, default)`. */
  function GetOr(entries: seq<(string, Json)>, key: string, default: Json): (r: Json)
    ensures Get(entries, key).None? ==> r == default
    ensures Get(entries, key).Some? ==> r == Get(entries, key).value
  {
    match Get(entries, key)
    case Some(v) => v
    case None => default
  }

  const EmptyDict: Json := JDict([])

  /** Counts under `key` that can be read: absent, or a dict whose `summary` is absent or a dict. */
  predicate ReadableCount(post: seq<(string, Json)>, key: string)
  {
    var outer := GetOr(post, key, EmptyDict);
    outer.JDict? && GetOr(outer.entries, "summary", EmptyDict).JDict?
  }

  /** `total_count` under `key`, read through the defaults `{}`, `{}` and 0. */
  function TotalCount(post: seq<(string, Json)>, key: string): Json
    requires ReadableCount(post, key)
  {
    GetOr(GetOr(GetOr(post, key, EmptyDict).entries, "summary", EmptyDict).entries, "total_count", JInt(0))
  }

  /**
   * `post.get(key, {}).get('summary', {}).get('total_count', 0)`; None when a
   * value on the way is not a dict, since calling `.get` on it raises.
   */
  function SummaryCount(post: seq<(string, Json)>, key: string): Option<Json>
  {
    if ReadableCount(post, key) then Some(TotalCount(post, key)) else None
  }

  /** `post.get('shares', {}).get('count', 0) if post.get('shares') else 0`. */
  function SharesCount(post: seq<(string, Json)>): Option<Json>
  {
    var shares := GetOr(post, "shares", JNull);
    if !Truthy(shares) then Some(JInt(0))
    else if !shares.JDict? then None
    else Some(GetOr(shares.entries, "count", JInt(0)))
  }

  /** `s.replace('Z', '+00:00')`: every `Z` becomes an explicit UTC offset. */
  function ReplaceZ(s: string): (r: string)
    ensures 'Z' !in r
  {
    if s == [] then []
    else (if s[0] == 'Z' then "+00:00" else [s[0]]) + ReplaceZ(s[1..])
  }

  /**
   * `created_time` as a naive timestamp. A missing or falsy value gives no
   * date; a string is read by `fromIso` (`datetime.fromisoformat` followed by
   * dropping the zone, so the wall-clock reading is kept); anything else raises.
   * The outer None means the post raised.
   */
  function PostDate(post: seq<(string, Json)>, fromIso: string -> Option<Timestamp>): Option<Option<Timestamp>>
  {
    var created := GetOr(post, "created_time", JStr(""));
    if !Truthy(created) then Some(None)
    else if !created.JStr? then None
    else
      match fromIso(ReplaceZ(created.s))
      case Some(t) => Some(Some(t))
      case None => None
  }

  /** The text of `s` before its first `_` (all of `s` when there is none): `s.split('_')[0]`. */
  function BeforeUnderscore(s: string): (r: string)
    ensures |r| <= |s| && r == s[..|r|]
    ensures '_' !in r
    ensures |r| < |s| ==> s[|r|] == '_'
    ensures '_' !in s ==> r == s
  {
    if s == [] || s[0] == '_' then [] else [s[0]] + BeforeUnderscore(s[1..])
  }

  /**
   * `author_id` and `author_name` from the post id. A string id with a `_`
   * gives its text before the first `_` and `page_` plus that text; any other
   * string id is kept whole with the name `unknown`. For a list or dict id,
   * `'_' in id` tests for an element or key `_`: found, `split` raises;
   * not found, the id is kept whole. Any other id raises at the `in` test.
   */
  function Author(id: Json): Option<(Json, string)>
  {
    match id
    case JStr(s) =>
      if '_' in s then Some((JStr(BeforeUnderscore(s)), "page_" + BeforeUnderscore(s)))
      else Some((id, "unknown"))
    case JList(items) =>
      if JStr("_") in items then None else Some((id, "unknown"))
    case JDict(entries) =>
      if Get(entries, "_").Some? then None else Some((id, "unknown"))
    case _ => None
  }

  /** One mapped post. */
  datatype Record = Record(
    postId: Json,
    content: Json,
    likes: Json,
    comments: Json,
    shares: Json,
    postDate: Option<Timestamp>,
    authorId: Json,
    authorName: string)

  /** The body of the `try` at lines 69-88 for one post; None when it raises and the post is skipped. */
  function TransformPost(post: Json, fromIso: string -> Option<Timestamp>): Option<Record>
  {
    if !post.JDict? then None
    else
      var e := post.entries;
      var likes := SummaryCount(e, "likes");
      var comments := SummaryCount(e, "comments");
      var shares := SharesCount(e);
      var date := PostDate(e, fromIso);
      var id := Get(e, "id");
      if likes.None? || comments.None? || shares.None? || date.None? || id.None? then None
      else
        match Author(id.value)
        case None => None
        case Some(author) =>
          Some(Record(id.value, GetOr(e, "message", JStr("")), likes.value, comments.value, shares.value,
                      date.value, author.0, author.1))
  }

  /** `f`'s value for each element it maps, in order; an element it does not map is dropped. */
  function FilterMap<A, B>(xs: seq<A>, f: A -> Option<B>): seq<B>
  {
    if xs == [] then []
    else FilterMap(xs[..|xs| - 1], f) + match f(xs[|xs| - 1]) case Some(y) => [y] case None => []
  }

  /** The records of the posts that map, in post order. */
  function TransformAll(posts: seq<Json>, fromIso: string -> Option<Timestamp>): seq<Record>
  {
    FilterMap(posts, post => TransformPost(post, fromIso))
  }

  /** What `for post in data` walks over: a list's items, a string's characters, a dict's keys. */
  function Iterated(data: Json): Option<seq<Json>>
  {
    match data
    case JList(items) => Some(items)
    case JStr(s) => Some(seq(|s|, i requires 0 <= i < |s| => JStr([s[i]])))
    case JDict(entries) => Some(seq(|entries|, i requires 0 <= i < |entries| => JStr(entries[i].0)))
    case _ => None
  }

  /** The loop header raises when `data` cannot be iterated; that error is outside the `try`. */
  datatype ResponseError = DataNotIterable(data: Json)

  /** What `_transform_response` returns, or the error it raises. */
  function TransformResponseSpec(raw: seq<(string, Json)>, fromIso: string -> Option<Timestamp>): Result<seq<Record>, ResponseError>
  {
    if raw == [] || Get(raw, "data").None? then Ok([])
    else
      match Iterated(Get(raw, "data").value)
      case None => Err(DataNotIterable(Get(raw, "data").value))
      case Some(posts) => Ok(TransformAll(posts, fromIso))
  }

  /** One more post: its record, if it maps, follows the records so far. */
  lemma TransformAllStep(posts: seq<Json>, i: int, fromIso: string -> Option<Timestamp>)
    requires 0 <= i < |posts|
    ensures TransformAll(posts[..i + 1], fromIso) ==
      TransformAll(posts[..i], fromIso) + match TransformPost(posts[i], fromIso) case Some(rec) => [rec] case None => []
  {
    assert posts[..i + 1][..i] == posts[..i];
  }

  /** `_transform_response`: appends each post's record, skipping a post that raises. */
  method TransformResponse(raw: seq<(string, Json)>, fromIso: string -> Option<Timestamp>)
    returns (r: Result<seq<Record>, ResponseError>)
    ensures r == TransformResponseSpec(raw, fromIso)
  {
    var transformed: seq<Record> := [];
    if raw == [] || Get(raw, "data").None? {
      return Ok(transformed);
    }
    var data := Get(raw, "data").value;
    var iterated := Iterated(data);
    if iterated.None? {
      return Err(DataNotIterable(data));
    }
    var posts := iterated.value;
    for i := 0 to |posts|
      invariant transformed == TransformAll(posts[..i], fromIso)
    {
      TransformAllStep(posts, i, fromIso);
      var rec := TransformPost(posts[i], fromIso);
      if rec.Some? {
        transformed := transformed + [rec.value];
      }
    }
    assert posts[..|posts|] == posts;
    return Ok(transformed);
  }

  // ---------------------------------------------------------------------
  // Properties
  // ---------------------------------------------------------------------

  /** A string without `Z` is left as it is. */
  lemma {:induction false} ReplaceZWithoutZ(s: string)
    requires 'Z' !in s
    ensures ReplaceZ(s) == s
  {
    if s != [] {
      assert s[1..] == s[|[s[0]]|..];
      ReplaceZWithoutZ(s[1..]);
    }
  }

  /** The `Z` suffix of an ISO 8601 UTC time becomes `+00:00`. */
  lemma {:induction false} ReplaceZSuffix(s: string)
    requires 'Z' !in s
    ensures ReplaceZ(s + "Z") == s + "+00:00"
    decreases |s|
  {
    var t := s + "Z";
    if s == [] {
      assert t == ['Z'] && t[1..] == [];
      assert ReplaceZ(t) == "+00:00" + ReplaceZ([]);
    } else {
      assert t[0] == s[0] != 'Z';
      assert t[1..] == s[1..] + "Z";
      assert 'Z' !in s[1..] by {
        assert forall i :: 0 <= i < |s[1..]| ==> s[1..][i] == s[i + 1];
      }
      ReplaceZSuffix(s[1..]);
      assert ReplaceZ(t) == [s[0]] + ReplaceZ(t[1..]);
      assert s == [s[0]] + s[1..];
    }
  }

  /** Mapping a list piece by piece: the values for `a + b` are those for `a` followed by those for `b`. */
  lemma {:induction false} FilterMapConcat<A, B>(a: seq<A>, b: seq<A>, f: A -> Option<B>)
    ensures FilterMap(a + b, f) == FilterMap(a, f) + FilterMap(b, f)
    decreases |b|
  {
    if b == [] {
      assert a + b == a;
    } else {
      assert (a + b)[..|a + b| - 1] == a + b[..|b| - 1];
      FilterMapConcat(a, b[..|b| - 1], f);
    }
  }

  lemma {:induction false} FilterMapLength<A, B>(xs: seq<A>, f: A -> Option<B>)
    ensures |FilterMap(xs, f)| <= |xs|
    ensures (forall i :: 0 <= i < |xs| ==> f(xs[i]).Some?) ==> |FilterMap(xs, f)| == |xs|
    decreases |xs|
  {
    if xs != [] {
      FilterMapLength(xs[..|xs| - 1], f);
    }
  }

  /**
   * Records keep post order and come one per post that maps: a skipped post
   * drops out without affecting the posts around it.
   */
  lemma TransformAllSkips(posts: seq<Json>, fromIso: string -> Option<Timestamp>, i: int)
    requires 0 <= i < |posts|
    ensures TransformAll(posts, fromIso) ==
      TransformAll(posts[..i], fromIso)
      + (match TransformPost(posts[i], fromIso) case Some(rec) => [rec] case None => [])
      + TransformAll(posts[i + 1..], fromIso)
  {
    var f := post => TransformPost(post, fromIso);
    assert posts == posts[..i] + [posts[i]] + posts[i + 1..];
    FilterMapConcat(posts[..i] + [posts[i]], posts[i + 1..], f);
    FilterMapConcat(posts[..i], [posts[i]], f);
    assert [posts[i]][..0] == [];
  }

  /** There are never more records than posts, and as many when every post maps. */
  lemma TransformAllLength(posts: seq<Json>, fromIso: string -> Option<Timestamp>)
    ensures |TransformAll(posts, fromIso)| <= |posts|
    ensures (forall i :: 0 <= i < |posts| ==> TransformPost(posts[i], fromIso).Some?) ==> |TransformAll(posts, fromIso)| == |posts|
  {
    FilterMapLength(posts, post => TransformPost(post, fromIso));
  }

  /** A falsy response, or one without a `data` key, maps to no records. */
  lemma EmptyResponse(raw: seq<(string, Json)>, fromIso: string -> Option<Timestamp>)
    requires raw == [] || forall i :: 0 <= i < |raw| ==> raw[i].0 != "data"
    ensures TransformResponseSpec(raw, fromIso) == Ok([])
  {
  }

  /** A post without an `id`, or one that is not a dict, raises and is skipped. */
  lemma MissingIdSkipped(post: Json, fromIso: string -> Option<Timestamp>)
    requires !post.JDict? || Get(post.entries, "id").None?
    ensures TransformPost(post, fromIso) == None
  {
  }

  /**
   * The count under `key` is read exactly when the chain of `.get` calls does
   * not raise; it is then `total_count`, and a missing `likes`, `summary` or
   * `total_count` reads as 0.
   */
  lemma SummaryCountDefaults(post: seq<(string, Json)>, key: string)
    ensures SummaryCount(post, key).Some? <==> ReadableCount(post, key)
    ensures ReadableCount(post, key) ==> SummaryCount(post, key) == Some(TotalCount(post, key))
    ensures Get(post, key).None? ==> SummaryCount(post, key) == Some(JInt(0))
    ensures Get(post, key).Some? && Get(post, key).value.JDict? && Get(Get(post, key).value.entries, "summary").None?
      ==> SummaryCount(post, key) == Some(JInt(0))
    ensures ReadableCount(post, key)
      && Get(GetOr(GetOr(post, key, EmptyDict).entries, "summary", EmptyDict).entries, "total_count").None?
      ==> SummaryCount(post, key) == Some(JInt(0))
  {
  }

  /**
   * The fields of a mapped post: likes and comments are their `total_count`,
   * counts default to 0 (`shares` also when it
   * is falsy), `content` to '', and `post_date` is None when `created_time`
   * is absent or falsy, otherwise the parsed time with `Z` read as UTC.
   */
  lemma TransformPostFields(post: Json, fromIso: string -> Option<Timestamp>)
    requires TransformPost(post, fromIso).Some?
    ensures var rec := TransformPost(post, fromIso).value;
      var e := post.entries;
      && post.JDict?
      && Get(e, "id") == Some(rec.postId)
      && ReadableCount(e, "likes") && rec.likes == TotalCount(e, "likes")
      && ReadableCount(e, "comments") && rec.comments == TotalCount(e, "comments")
      && (Get(e, "likes").None? ==> rec.likes == JInt(0))
      && (Get(e, "comments").None? ==> rec.comments == JInt(0))
      && (!Truthy(GetOr(e, "shares", JNull)) ==> rec.shares == JInt(0))
      && (Truthy(GetOr(e, "shares", JNull)) ==> rec.shares == GetOr(GetOr(e, "shares", JNull).entries, "count", JInt(0)))
      && (Get(e, "message").None? ==> rec.content == JStr(""))
      && (Get(e, "message").Some? ==> rec.content == Get(e, "message").value)
      && (!Truthy(GetOr(e, "created_time", JStr(""))) ==> rec.postDate == None)
      && (Truthy(GetOr(e, "created_time", JStr(""))) ==>
            GetOr(e, "created_time", JStr("")).JStr? && rec.postDate.Some?
            && fromIso(ReplaceZ(GetOr(e, "created_time", JStr("")).s)) == rec.postDate)
  {
  }

  /**
   * For a string id, `author_id` is the text before the first `_` and
   * `author_name` is `page_` plus it; an id without `_` is kept whole and
   * the name is `unknown`.
   */
  lemma TransformPostAuthor(post: Json, fromIso: string -> Option<Timestamp>)
    requires TransformPost(post, fromIso).Some? && TransformPost(post, fromIso).value.postId.JStr?
    ensures var rec := TransformPost(post, fromIso).value;
      var id := rec.postId.s;
      && ('_' in id ==>
            rec.authorId == JStr(BeforeUnderscore(id)) && rec.authorName == "page_" + BeforeUnderscore(id)
            && |BeforeUnderscore(id)| < |id| && id[|BeforeUnderscore(id)|] == '_')
      && ('_' !in id ==> rec.authorId == JStr(id) && rec.authorName == "unknown")
  {
  }

  /**
   * A well-formed post always maps: a dict with a string id, readable like
   * and comment counts, shares absent or a dict, and a creation time that is
   * absent or a string `fromIso` accepts.
   */
  lemma WellFormedPostMaps(e: seq<(string, Json)>, fromIso: string -> Option<Timestamp>)
    requires Get(e, "id").Some? && Get(e, "id").value.JStr?
    requires ReadableCount(e, "likes") && ReadableCount(e, "comments")
    requires GetOr(e, "shares", EmptyDict).JDict?
    requires var created := GetOr(e, "created_time", JStr(""));
      created.JStr? && (created.s != "" ==> fromIso(ReplaceZ(created.s)).Some?)
    ensures TransformPost(JDict(e), fromIso).Some?
  {
    assert SummaryCount(e, "likes").Some? && SummaryCount(e, "comments").Some?;
    assert SharesCount(e).Some? && PostDate(e, fromIso).Some?;
  }

  /** The records are exactly the mapped posts, in order, and no more of them than posts. */
  lemma TransformResponseRecords(raw: seq<(string, Json)>, fromIso: string -> Option<Timestamp>)
    requires raw != [] && Get(raw, "data").Some? && Get(raw, "data").value.JList?
    ensures var posts := Get(raw, "data").value.items;
      && TransformResponseSpec(raw, fromIso) == Ok(TransformAll(posts, fromIso))
      && |TransformAll(posts, fromIso)| <= |posts|
  {
    TransformAllLength(Get(raw, "data").value.items, fromIso);
  }
}
