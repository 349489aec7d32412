/** The decode loop of `fetch_live_leaderboard` (src/util.rs): the upstream
    mini-crossword leaderboard, already parsed as JSON, becomes a list of
    results. The HTTP request and the JSON text parser are not modelled. */
module LiveFeed {
  import opened Wrappers
  import opened Ints
  import opened Digits
  import opened Models

  /** A JSON value as far as the decoders look at it. `Absent` is a key that
      is not there; `Float` is a number written with a fraction or exponent;
      `Compound` is an array or an object. */
  datatype Json =
    | Absent
    | Null
    | Bool(b: bool)
    | Int(i: int)
    | Float(isZero: bool)
    | Str(s: string)
    | Compound(isEmpty: bool)

  /** The `score` member of a feed entry: missing, an object (of which only
      `secondsSpentSolving` matters), or some other JSON value. */
  datatype Score = NoScore | ScoreObject(secondsSpentSolving: Json) | NotAnObject

  datatype FeedEntry = FeedEntry(name: Json, rank: Json, score: Score)

  /** The error messages of the decode, one per `ok_or`. */
  datatype DecodeError = NoResults | BadTime | BadName

  /** serde_json's `as_str`. */
  function AsStr(j: Json): Option<string> {
    if j.Str? then Some(j.s) else None
  }

  /** serde_json's `as_i64`: integers inside the `i64` range only. */
  function AsI64(j: Json): Option<int> {
    if j.Int? && IsI64(j.i) then Some(j.i) else None
  }

  /** The entry's rank: its `rank` field must be a JSON string that parses
      as an `i32`; anything else gives no rank. */
  function RankOf(e: FeedEntry): Option<int> {
    match AsStr(e.rank)
    case None => None
    case Some(text) => ParseI32(text)
  }

  /** The solving time in seconds: the `secondsSpentSolving` field of the
      `score` object, when it is an integer in the `i64` range. A `score`
      that is not an object has no such field. */
  function SecondsOf(e: FeedEntry): Option<int> {
    if e.score.ScoreObject? then AsI64(e.score.secondsSpentSolving) else None
  }

  predicate Decodable(e: FeedEntry) {
    SecondsOf(e).Some? && AsStr(e.name).Some?
  }

  /** The result built from a ranked, decodable entry: the time cut to `i32`
      by `as i32`, and the default empty date. */
  function EntryOf(e: FeedEntry): ResultEntry
    requires RankOf(e).Some? && Decodable(e)
  {
    ResultEntry("", WrapI32(SecondsOf(e).value), AsStr(e.name).value, RankOf(e).value)
  }

  /** The error the decode of a ranked entry reports: the time is read first. */
  function ErrorOf(e: FeedEntry): DecodeError
    requires !Decodable(e)
  {
    if SecondsOf(e).None? then BadTime else BadName
  }

  /** The entries the loop does not skip, in feed order. */
  function Ranked(es: seq<FeedEntry>): (r: seq<FeedEntry>)
    ensures forall i :: 0 <= i < |r| ==> RankOf(r[i]).Some?
    ensures |r| <= |es|
  {
    if es == [] then []
    else if RankOf(es[0]).Some? then [es[0]] + Ranked(es[1..])
    else Ranked(es[1..])
  }

  lemma {:induction false} RankedAppend(es: seq<FeedEntry>, e: FeedEntry)
    ensures Ranked(es + [e]) == Ranked(es) + (if RankOf(e).Some? then [e] else [])
    decreases |es|
  {
    if es == [] {
      assert es + [e] == [e];
    } else {
      assert (es + [e])[1..] == es[1..] + [e];
      RankedAppend(es[1..], e);
    }
  }

  /** The decode loop. `data` is `v["data"].as_array()`: `None` when the
      response has no `data` array. Entries whose rank is missing or not an
      `i32` string are skipped; the first ranked entry without an integer
      time or a string name fails the whole decode. */
  method DecodeLiveLeaderboard(data: Option<seq<FeedEntry>>) returns (r: Result<seq<ResultEntry>, DecodeError>)
    ensures data.None? ==> r == Err(NoResults)
    ensures data.Some? ==>
      (r.Ok? <==> forall i :: 0 <= i < |Ranked(data.value)| ==> Decodable(Ranked(data.value)[i]))
    ensures data.Some? && r.Ok? ==>
      var ranked := Ranked(data.value);
      |r.value| == |ranked| && forall i :: 0 <= i < |ranked| ==> r.value[i] == EntryOf(ranked[i])
    ensures data.Some? && r.Err? ==>
      var ranked := Ranked(data.value);
      exists k :: 0 <= k < |ranked| && !Decodable(ranked[k]) && r.error == ErrorOf(ranked[k])
        && forall j :: 0 <= j < k ==> Decodable(ranked[j])
  {
    if data.None? {
      return Err(NoResults);
    }
    r := DecodeEntries(data.value);
  }

  /** The loop over the `data` array. */
  method DecodeEntries(es: seq<FeedEntry>) returns (r: Result<seq<ResultEntry>, DecodeError>)
    ensures r.Ok? <==> forall i :: 0 <= i < |Ranked(es)| ==> Decodable(Ranked(es)[i])
    ensures r.Ok? ==> |r.value| == |Ranked(es)| && forall i :: 0 <= i < |Ranked(es)| ==> r.value[i] == EntryOf(Ranked(es)[i])
    ensures r.Err? ==>
      exists k :: 0 <= k < |Ranked(es)| && !Decodable(Ranked(es)[k]) && r.error == ErrorOf(Ranked(es)[k])
        && forall j :: 0 <= j < k ==> Decodable(Ranked(es)[j])
  {
    var out: seq<ResultEntry> := [];
    ghost var ranked: seq<FeedEntry> := [];
    var n := 0;
    while n < |es|
      invariant 0 <= n <= |es|
      invariant ranked == Ranked(es[..n])
      invariant DecodedAs(out, ranked)
    {
      var e := es[n];
      assert es[..n + 1] == es[..n] + [e];
      RankedAppend(es[..n], e);
      var rank := RankOf(e);
      if rank.None? {
        n := n + 1;
        continue;
      }
      var seconds := SecondsOf(e);
      if seconds.None? {
        FirstUndecodable(es, n);
        return Err(BadTime);
      }
      var name := AsStr(e.name);
      if name.None? {
        FirstUndecodable(es, n);
        return Err(BadName);
      }
      var entry := ResultEntry("", WrapI32(seconds.value), name.value, rank.value);
      DecodedStep(ranked, out, e, entry);
      out := out + [entry];
      ranked := ranked + [e];
      n := n + 1;
    }
    assert es[..n] == es;
    return Ok(out);
  }

  /** `out` holds the decoded form of each of the `ranked` entries, in order. */
  predicate DecodedAs(out: seq<ResultEntry>, ranked: seq<FeedEntry>) {
    && |out| == |ranked|
    && forall i :: 0 <= i < |out| ==>
      RankOf(ranked[i]).Some? && Decodable(ranked[i]) && out[i] == EntryOf(ranked[i])
  }

  /** Appending a decoded entry keeps the output in step with the ranked entries. */
  lemma DecodedStep(ranked: seq<FeedEntry>, out: seq<ResultEntry>, e: FeedEntry, entry: ResultEntry)
    requires DecodedAs(out, ranked)
    requires RankOf(e).Some? && Decodable(e) && entry == EntryOf(e)
    ensures DecodedAs(out + [entry], ranked + [e])
  {
    assert forall i :: 0 <= i < |out| ==> (ranked + [e])[i] == ranked[i] && (out + [entry])[i] == out[i];
  }

  /** The ranked entries of a prefix are a prefix of the ranked entries. */
  lemma {:induction false} RankedPrefix(es: seq<FeedEntry>, n: nat)
    requires n <= |es|
    ensures |Ranked(es[..n])| <= |Ranked(es)|
    ensures Ranked(es[..n]) == Ranked(es)[..|Ranked(es[..n])|]
    decreases |es| - n
  {
    if n < |es| {
      assert es[..n + 1] == es[..n] + [es[n]];
      RankedAppend(es[..n], es[n]);
      RankedPrefix(es, n + 1);
    } else {
      assert es[..n] == es;
    }
  }

  /** A ranked, undecodable entry after decodable ones is the first failure
      among all ranked entries. */
  lemma FirstUndecodable(es: seq<FeedEntry>, n: nat)
    requires n < |es| && RankOf(es[n]).Some? && !Decodable(es[n])
    requires forall i :: 0 <= i < |Ranked(es[..n])| ==> Decodable(Ranked(es[..n])[i])
    ensures var k := |Ranked(es[..n])|;
      && k < |Ranked(es)| && Ranked(es)[k] == es[n]
      && forall j :: 0 <= j < k ==> Decodable(Ranked(es)[j])
  {
    assert es[..n + 1] == es[..n] + [es[n]];
    RankedAppend(es[..n], es[n]);
    RankedPrefix(es, n + 1);
    var k := |Ranked(es[..n])|;
    assert Ranked(es[..n + 1])[k] == es[n];
    forall j | 0 <= j < k
      ensures Decodable(Ranked(es)[j])
    {
      assert Ranked(es)[j] == Ranked(es[..n + 1])[j] == Ranked(es[..n])[j];
    }
  }
}
