/** The printed cache key of the endpoint list and when it tells two requests apart. */
module EndpointKey {
  import opened Strings

  /** The validated filters of a list request.  A missing filter prints as the text None. */
  datatype Query = Query(host: Option<string>, verb: Option<string>, collection: Option<string>, limit: nat,
                         offset: nat)

  datatype Key = Key(account: nat, version: nat, query: Query)

  const PREFIX := "endpoints"
  const NONE := "None"

  function Shown(filter: Option<string>): string {
    match filter
    case None => NONE
    case Some(text) => text
  }

  /** What validation guarantees: a filter that is present is not empty, and a collection id is a UUID. */
  predicate Valid(q: Query) {
    && (q.host.Some? ==> q.host.value != "")
    && (q.verb.Some? ==> q.verb.value != "")
    && (q.collection.Some? ==> ':' !in q.collection.value && q.collection.value != NONE)
  }

  /** Queries the key tells apart: no literal None, and no colon in the method before its last character. */
  predicate Clean(q: Query) {
    && Valid(q)
    && q.host != Some(NONE)
    && q.verb != Some(NONE)
    && (q.verb.Some? ==> ':' !in q.verb.value[..|q.verb.value| - 1])
  }

  function Middle(q: Query): string {
    Shown(q.host) + ":" + Shown(q.verb)
  }

  function Tail(q: Query): string {
    Middle(q) + ":" + Shown(q.collection) + ":" + Decimal(q.limit) + ":" + Decimal(q.offset)
  }

  function Print(k: Key): string {
    PREFIX + ":" + (Decimal(k.account) + ":" + (Decimal(k.version) + ":" + Tail(k.query)))
  }

  /** The key with host and method still in one piece, since either may contain the separator. */
  datatype Frame = Frame(account: int, version: int, middle: string, collection: string, limit: int, offset: int)

  function FrameOf(k: Key): Frame {
    Frame(k.account, k.version, Middle(k.query), Shown(k.query.collection), k.query.limit, k.query.offset)
  }

  function ParseFrame(s: string): Option<Frame> {
    var (_, s1) :- SplitFirst(s, ':');
    var (account, s2) :- SplitFirst(s1, ':');
    var (version, s3) :- SplitFirst(s2, ':');
    var (s4, offset) :- SplitLast(s3, ':');
    var (s5, limit) :- SplitLast(s4, ':');
    var (middle, collection) :- SplitLast(s5, ':');
    Some(Frame(Value(account), Value(version), middle, collection, Value(limit), Value(offset)))
  }

  lemma HeadSplits(k: Key)
    ensures SplitFirst(Print(k), ':')
              == Some((PREFIX, Decimal(k.account) + ":" + (Decimal(k.version) + ":" + Tail(k.query))))
    ensures SplitFirst(Decimal(k.account) + ":" + (Decimal(k.version) + ":" + Tail(k.query)), ':')
         == Some((Decimal(k.account), Decimal(k.version) + ":" + Tail(k.query)))
    ensures SplitFirst(Decimal(k.version) + ":" + Tail(k.query), ':') == Some((Decimal(k.version), Tail(k.query)))
  {
    var account, version, tail := Decimal(k.account), Decimal(k.version), Tail(k.query);
    assert ":" == [':'];
    SplitFirstUnique(PREFIX, account + ":" + (version + ":" + tail), ':');
    SplitFirstUnique(account, version + ":" + tail, ':');
    SplitFirstUnique(version, tail, ':');
  }

  lemma TailSplits(q: Query)
    requires Valid(q)
    ensures SplitLast(Tail(q), ':')
         == Some((Middle(q) + ":" + Shown(q.collection) + ":" + Decimal(q.limit), Decimal(q.offset)))
    ensures SplitLast(Middle(q) + ":" + Shown(q.collection) + ":" + Decimal(q.limit), ':')
         == Some((Middle(q) + ":" + Shown(q.collection), Decimal(q.limit)))
    ensures SplitLast(Middle(q) + ":" + Shown(q.collection), ':') == Some((Middle(q), Shown(q.collection)))
  {
    assert ":" == [':'];
    SplitLastUnique(Middle(q) + ":" + Shown(q.collection) + ":" + Decimal(q.limit), Decimal(q.offset), ':');
    SplitLastUnique(Middle(q) + ":" + Shown(q.collection), Decimal(q.limit), ':');
    SplitLastUnique(Middle(q), Shown(q.collection), ':');
  }

  lemma FrameRoundTrip(k: Key)
    requires Valid(k.query)
    ensures ParseFrame(Print(k)) == Some(FrameOf(k))
  {
    HeadSplits(k);
    TailSplits(k.query);
    DecimalValue(k.account);
    DecimalValue(k.version);
    DecimalValue(k.query.limit);
    DecimalValue(k.query.offset);
  }

  function Unshown(text: string): Option<string> {
    if text == NONE then None else Some(text)
  }

  /** Host and method split at the last colon that leaves a method. */
  function SplitMiddle(middle: string): Option<(string, string)> {
    if middle == "" then None
    else
      var last := |middle| - 1;
      var (host, verb) :- SplitLast(middle[..last], ':');
      Some((host, verb + [middle[last]]))
  }

  function Parse(s: string): Option<Key> {
    var f :- ParseFrame(s);
    var (host, verb) :- SplitMiddle(f.middle);
    if f.account < 0 || f.version < 0 || f.limit < 0 || f.offset < 0 then None
    else Some(Key(f.account, f.version, Query(Unshown(host), Unshown(verb), Unshown(f.collection), f.limit, f.offset)))
  }

  /** The middle piece without its last character: everything a colon could split. */
  lemma MiddleFront(q: Query)
    requires Valid(q)
    ensures var middle, h, m := Middle(q), Shown(q.host), Shown(q.verb);
            && middle != "" && m != "" && h != ""
            && middle[..|middle| - 1] == h + [':'] + m[..|m| - 1] && middle[|middle| - 1] == m[|m| - 1]
  {
  }

  lemma MiddleSplits(q: Query)
    requires Valid(q)
    ensures SplitMiddle(Middle(q)).Some?
    ensures var (host, verb) := SplitMiddle(Middle(q)).value;
            host + ":" + verb == Middle(q) && host != "" && verb != "" && ':' !in verb[..|verb| - 1]
  {
    MiddleFront(q);
    FrontSplits(Middle(q), Shown(q.host));
  }

  /** A text with a colon past its start and before its last character splits there or later. */
  lemma FrontSplits(middle: string, host: string)
    requires 0 < |host| < |middle| - 1 && middle[|host|] == ':'
    ensures SplitMiddle(middle).Some?
    ensures var (x, verb) := SplitMiddle(middle).value;
            x + ":" + verb == middle && x != "" && verb != "" && ':' !in verb[..|verb| - 1]
  {
    var front, end := middle[..|middle| - 1], middle[|middle| - 1];
    assert front[|host|] == ':';
    var (x, y) := SplitLast(front, ':').value;
    assert (y + [end])[..|y + [end]| - 1] == y;
    assert |x| >= |host| by {
      assert forall i :: |x| < i < |front| ==> front[i] == y[i - |x| - 1];
    }
    assert middle == front + [end];
    assert x + ":" + (y + [end]) == x + [':'] + y + [end];
  }

  lemma CleanMiddleSplits(q: Query)
    requires Clean(q)
    ensures SplitMiddle(Middle(q)) == Some((Shown(q.host), Shown(q.verb)))
  {
    MiddleFront(q);
    var m := Shown(q.verb);
    assert ':' !in m[..|m| - 1];
    SplitLastUnique(Shown(q.host), m[..|m| - 1], ':');
    assert m == m[..|m| - 1] + [m[|m| - 1]];
  }

  lemma ShownOnce(filter: Option<string>)
    ensures Shown(Unshown(Shown(filter))) == Shown(filter)
    ensures Unshown(Shown(filter)) == filter <==> filter != Some(NONE)
  {
  }

  function Reading(q: Query): Query
    requires Valid(q)
  {
    MiddleSplits(q);
    var (host, verb) := SplitMiddle(Middle(q)).value;
    q.(host := Unshown(host), verb := Unshown(verb))
  }

  lemma ReadingIsClean(q: Query)
    requires Valid(q)
    ensures Clean(Reading(q)) && Middle(Reading(q)) == Middle(q)
    ensures Reading(q) == q <==> Clean(q)
  {
    MiddleSplits(q);
    var (host, verb) := SplitMiddle(Middle(q)).value;
    assert Shown(Unshown(host)) == host && Shown(Unshown(verb)) == verb;
    if Clean(q) {
      CleanMiddleSplits(q);
      ShownOnce(q.host);
      ShownOnce(q.verb);
    }
  }

  lemma ParseIsReading(k: Key)
    requires Valid(k.query)
    ensures Parse(Print(k)) == Some(k.(query := Reading(k.query)))
  {
    FrameRoundTrip(k);
    MiddleSplits(k.query);
    ShownOnce(k.query.collection);
  }

  /** Decoding the printed key of any valid request gives the one clean request with that key. */
  lemma KeyHasOneCleanReading(k: Key)
    requires Valid(k.query)
    ensures Parse(Print(k)).Some?
    ensures var k' := Parse(Print(k)).value; Clean(k'.query) && Print(k') == Print(k)
    ensures Parse(Print(k)) == Some(k) <==> Clean(k.query)
  {
    ParseIsReading(k);
    ReadingIsClean(k.query);
  }

  /** Two valid requests share a key exactly when they agree on everything but how host:method falls apart. */
  lemma KeysClashExactly(k: Key, k': Key)
    requires Valid(k.query) && Valid(k'.query)
    ensures Print(k) == Print(k') <==>
            && k.account == k'.account && k.version == k'.version
            && k.query.(host := None, verb := None) == k'.query.(host := None, verb := None)
            && Middle(k.query) == Middle(k'.query)
  {
    if Print(k) == Print(k') {
      FrameRoundTrip(k);
      FrameRoundTrip(k');
      FramesAgree(k, k');
    }
  }

  lemma FramesAgree(k: Key, k': Key)
    requires Valid(k.query) && Valid(k'.query) && FrameOf(k) == FrameOf(k')
    ensures k.account == k'.account && k.version == k'.version && Middle(k.query) == Middle(k'.query)
    ensures k.query.(host := None, verb := None) == k'.query.(host := None, verb := None)
  {
    ShownOnce(k.query.collection);
    ShownOnce(k'.query.collection);
  }

  /** On clean requests the key determines account, version and every filter. */
  lemma CleanKeysDiffer(k: Key, k': Key)
    requires Clean(k.query) && Clean(k'.query) && Print(k) == Print(k')
    ensures k == k'
  {
    KeyHasOneCleanReading(k);
    KeyHasOneCleanReading(k');
  }

  /** Asking for the host None reads and writes the entry of the unfiltered list. */
  lemma LiteralNoneClashes(k: Key)
    requires k.query.host.None?
    ensures Print(k.(query := k.query.(host := Some(NONE)))) == Print(k)
  {
  }

  /** A colon in the method moves over to the host. */
  lemma ColonMethodClashes(account: nat, version: nat, limit: nat, offset: nat)
    ensures var q := Query(Some("api"), Some("a:b"), None, limit, offset);
            var q' := Query(Some("api:a"), Some("b"), None, limit, offset);
            && Valid(q) && Clean(q') && !Clean(q) && q != q'
            && Print(Key(account, version, q)) == Print(Key(account, version, q'))
  {
    var q := Query(Some("api"), Some("a:b"), None, limit, offset);
    var q' := Query(Some("api:a"), Some("b"), None, limit, offset);
    assert "a:b"[1] == ':' && "a:b"[..2] == "a:" && ':' in "a:";
    assert Middle(q) == "api:a:b" == Middle(q');
    assert "api" != NONE && "api:a" != NONE && "b" != NONE by {
      assert |NONE| == 4 && "api"[0] == 'a' && |"api:a"| == 5;
    }
    KeysClashExactly(Key(account, version, q), Key(account, version, q'));
  }
}
