/** Cursor-paginated lists: the opaque cursor codecs, and the walk a client makes by following next_cursor. */
module Listing {
  import opened Base64
  import opened Bytes
  import opened Ids
  import opened Sorting
  import opened Wrappers

  // --- cursor codecs --------------------------------------------------------------------------------

  /** RFC 3339 formatting and parsing of instants; 0 is the zero instant. */
  datatype TimeText = TimeText(format: int -> Text, parse: Text -> Option<int>)

  const ZERO_TIME: int := 0

  /** Parsing undoes formatting, and a formatted instant is never empty and holds no separator. */
  ghost predicate Faithful(tt: TimeText) {
    forall t :: tt.parse(tt.format(t)) == Some(t) && tt.format(t) != [] && '|' !in tt.format(t)
  }

  datatype CertKey = CertKey(at: int, id: Text)

  datatype ObsKey = ObsKey(at: int, agent: Text, store: Text)

  /** At most n parts; the last one keeps any further separators. */
  function SplitN(t: Text, n: nat): seq<Text>
    requires n >= 1
  {
    var i := IndexByte(t, '|');
    if n == 1 || i == |t| then [t] else [t[..i]] + SplitN(t[i + 1..], n - 1)
  }

  function EncodeCert(tt: TimeText, k: CertKey): Text {
    Encode(tt.format(k.at) + ['|'] + k.id)
  }

  /** None is the malformed-cursor error; the empty cursor is the first page. */
  function DecodeCert(tt: TimeText, raw: Text): Option<CertKey> {
    if raw == [] then Some(CertKey(ZERO_TIME, []))
    else
      match Decode(raw, false)
      case None => None
      case Some(decoded) => CertFromParts(tt, SplitN(decoded, 2))
  }

  function CertFromParts(tt: TimeText, parts: seq<Text>): Option<CertKey> {
    if |parts| != 2 || parts[0] == [] || parts[1] == [] then None
    else
      match tt.parse(parts[0])
      case None => None
      case Some(at) => Some(CertKey(at, parts[1]))
  }

  function EncodeObs(tt: TimeText, k: ObsKey): Text {
    Encode(tt.format(k.at) + ['|'] + (k.agent + ['|'] + k.store))
  }

  function DecodeObs(tt: TimeText, raw: Text): Option<ObsKey> {
    if raw == [] then Some(ObsKey(ZERO_TIME, [], []))
    else
      match Decode(raw, false)
      case None => None
      case Some(decoded) => ObsFromParts(tt, SplitN(decoded, 3))
  }

  function ObsFromParts(tt: TimeText, parts: seq<Text>): Option<ObsKey> {
    if |parts| != 3 || parts[0] == [] || parts[1] == [] || parts[2] == [] then None
    else
      match tt.parse(parts[0])
      case None => None
      case Some(at) => Some(ObsKey(at, parts[1], parts[2]))
  }

  lemma {:induction false} SplitStep(a: Text, b: Text, n: nat)
    requires '|' !in a && n >= 2
    ensures SplitN(a + ['|'] + b, n) == [a] + SplitN(b, n - 1)
  {
    var t := a + ['|'] + b;
    IndexAfter(a, b, '|');
    assert t[..|a|] == a && t[|a| + 1..] == b;
  }

  lemma {:induction false} DecodeEncoded(b: Text)
    requires b != []
    ensures Encode(b) != [] && Decode(Encode(b), false) == Some(b)
  {
    EncodeAlphabetic(b);
    AlphabeticClean(Encode(b));
    DecodeEncode(b, false);
  }

  /** The certificate cursor comes back iff the id is not empty; ids may contain the separator. */
  lemma {:induction false} CertRoundTrip(tt: TimeText, k: CertKey)
    requires Faithful(tt)
    ensures EncodeCert(tt, k) != []
    ensures DecodeCert(tt, EncodeCert(tt, k)) == Some(k) <==> k.id != []
  {
    var time := tt.format(k.at);
    assert tt.parse(time) == Some(k.at);
    DecodeEncoded(time + ['|'] + k.id);
    SplitStep(time, k.id, 2);
  }

  /**
    The observation cursor comes back iff agent and store are not empty and the agent holds no
    separator; the store may hold any.
  */
  lemma {:induction false} ObsRoundTrip(tt: TimeText, k: ObsKey)
    requires Faithful(tt)
    ensures EncodeObs(tt, k) != []
    ensures DecodeObs(tt, EncodeObs(tt, k)) == Some(k) <==> (k.agent != [] && '|' !in k.agent && k.store != [])
  {
    var time, rest := tt.format(k.at), k.agent + ['|'] + k.store;
    assert tt.parse(time) == Some(k.at);
    DecodeEncoded(time + ['|'] + rest);
    SplitStep(time, rest, 3);
    ObsParts(tt, k, time, SplitN(rest, 2));
  }

  lemma {:induction false} ObsParts(tt: TimeText, k: ObsKey, time: Text, rest: seq<Text>)
    requires tt.parse(time) == Some(k.at) && time != [] && rest == SplitN(k.agent + ['|'] + k.store, 2)
    ensures ObsFromParts(tt, [time] + rest) == Some(k) <==> (k.agent != [] && '|' !in k.agent && k.store != [])
  {
    if '|' !in k.agent {
      SplitStep(k.agent, k.store, 2);
      assert rest == [k.agent, k.store];
    } else {
      CutAgent(k.agent, k.store);
    }
  }

  lemma {:induction false} CutAgent(agent: Text, store: Text)
    requires '|' in agent
    ensures |SplitN(agent + ['|'] + store, 2)| == 2 && SplitN(agent + ['|'] + store, 2)[0] != agent
  {
    var i := IndexByte(agent, '|');
    IndexFound(agent, '|');
    var tail := agent[i + 1..] + ['|'] + store;
    assert agent + ['|'] + store == agent[..i] + ['|'] + tail;
    SplitStep(agent[..i], tail, 2);
    assert |agent[..i]| < |agent|;
  }

  // --- one page ------------------------------------------------------------------------------------------

  const DEFAULT_LIMIT: nat := 50
  const MAX_LIMIT: nat := 200

  function NormalizeLimit(raw: int): (r: Option<nat>)
    ensures r.Some? ==> 1 <= r.value <= MAX_LIMIT
  {
    if raw == 0 then Some(DEFAULT_LIMIT) else if raw < 0 || raw > MAX_LIMIT then None else Some(raw)
  }

  datatype Page<K> = Page(items: seq<K>, next: Text)

  /**
    What distinguishes the lists: the order of rows, whose ordering key stands for the row, the cursor
    codec, and the keys whose instant the store reads as "no bound".
  */
  datatype Lister<!K(!new)> = Lister(
    before: (K, K) -> bool, unbounded: K -> bool, encode: K -> Text, decode: Text -> Option<K>)

  /** The store's read: rows after the bound, in order, at most `limit`. */
  function Query<K(!new)>(l: Lister<K>, table: seq<K>, bound: K, limit: nat): seq<K> {
    var rows := if l.unbounded(bound) then table else Filter(table, (k: K) => l.before(bound, k));
    rows[..Min(|rows|, limit)]
  }

  /** One page, read with one row more than asked for to see whether another follows. */
  function List<K(!new)>(l: Lister<K>, table: seq<K>, limit: nat, cursor: Text): Option<Page<K>>
    requires limit >= 1
  {
    match l.decode(cursor)
    case None => None
    case Some(bound) =>
      var rows := Query(l, table, bound, limit + 1);
      if |rows| > limit then Some(Page(rows[..limit], l.encode(rows[limit - 1]))) else Some(Page(rows, []))
  }

  /** The certificate list for a raw limit: None is the invalid-input error. */
  function ListCertificates(tt: TimeText, table: seq<CertKey>, rawLimit: int, cursor: Text): Option<Page<CertKey>> {
    match NormalizeLimit(rawLimit)
    case None => None
    case Some(limit) => List(CertLister(tt), table, limit, cursor)
  }

  function ListObservations(tt: TimeText, table: seq<ObsKey>, rawLimit: int, cursor: Text): Option<Page<ObsKey>> {
    match NormalizeLimit(rawLimit)
    case None => None
    case Some(limit) => List(ObsLister(tt), table, limit, cursor)
  }

  // --- following next_cursor ---------------------------------------------------------------------------------

  /** The cursor of the n-th further page: None once a page came back without one. */
  function CursorAfter<K(!new)>(l: Lister<K>, table: seq<K>, limit: nat, n: nat): Option<Text>
    requires limit >= 1
  {
    if n == 0 then Some([])
    else
      match CursorAfter(l, table, limit, n - 1)
      case None => None
      case Some(cursor) =>
        match List(l, table, limit, cursor)
        case None => None
        case Some(page) => if page.next == [] then None else Some(page.next)
  }

  /** Everything the first n pages returned. */
  function Collected<K(!new)>(l: Lister<K>, table: seq<K>, limit: nat, n: nat): seq<K>
    requires limit >= 1
  {
    if n == 0 then []
    else
      Collected(l, table, limit, n - 1) +
      match CursorAfter(l, table, limit, n - 1)
      case None => []
      case Some(cursor) =>
        match List(l, table, limit, cursor)
        case None => []
        case Some(page) => page.items
  }

  /** An ordered table every key of which survives its cursor; the empty cursor asks for the first page. */
  ghost predicate Listable<K(!new)>(l: Lister<K>, table: seq<K>) {
    && StrictOrder(l.before) && Sorted(table, l.before)
    && l.decode([]).Some? && l.unbounded(l.decode([]).value)
    && forall k | k in table :: l.encode(k) != [] && l.decode(l.encode(k)) == Some(k)
  }

  lemma {:induction false} FilterAll<K(!new)>(s: seq<K>, keep: K -> bool)
    requires forall k | k in s :: keep(k)
    ensures Filter(s, keep) == s
  {
    if s != [] {
      assert s == [s[0]] + s[1..];
      FilterAll(s[1..], keep);
    }
  }

  lemma {:induction false} FilterNone<K(!new)>(s: seq<K>, keep: K -> bool)
    requires forall k | k in s :: !keep(k)
    ensures Filter(s, keep) == []
  {
    if s != [] {
      assert s == [s[0]] + s[1..];
      FilterNone(s[1..], keep);
    }
  }

  lemma {:induction false} RowsAfter<K(!new)>(before: (K, K) -> bool, table: seq<K>, m: nat)
    requires StrictOrder(before) && Sorted(table, before) && 1 <= m <= |table|
    ensures Filter(table, (k: K) => before(table[m - 1], k)) == table[m..]
  {
    var keep := (k: K) => before(table[m - 1], k);
    assert table == table[..m] + table[m..];
    FilterAppend(table[..m], table[m..], keep);
    FilterNone(table[..m], keep);
    FilterAll(table[m..], keep);
  }

  /** The cursor after m rows. */
  function Marker<K(!new)>(l: Lister<K>, table: seq<K>, m: nat): Text
    requires m <= |table|
  {
    if m == 0 then [] else l.encode(table[m - 1])
  }

  lemma {:induction false} SliceOfSlice<K>(table: seq<K>, m: nat, limit: nat)
    requires m <= |table|
    ensures var rows := table[m..][..Min(|table| - m, limit + 1)];
      if m + limit < |table| then |rows| == limit + 1 && rows[..limit] == table[m..m + limit]
      else rows == table[m..]
  {
  }

  /** The page at the cursor after m rows is the next slice, unless that cursor reads as no bound. */
  lemma {:induction false} PageAt<K(!new)>(l: Lister<K>, table: seq<K>, limit: nat, m: nat)
    requires Listable(l, table) && limit >= 1 && m <= |table| && (m > 0 ==> !l.unbounded(table[m - 1]))
    ensures List(l, table, limit, Marker(l, table, m)) ==
      if m + limit < |table| then Some(Page(table[m..m + limit], Marker(l, table, m + limit)))
      else Some(Page(table[m..], []))
  {
    var bound := l.decode(Marker(l, table, m)).value;
    if m > 0 {
      assert table[m - 1] in table;
      RowsAfter(l.before, table, m);
      assert Query(l, table, bound, limit + 1) == table[m..][..Min(|table| - m, limit + 1)];
    } else {
      assert table[0..] == table;
      assert Query(l, table, bound, limit + 1) == table[m..][..Min(|table| - m, limit + 1)];
    }
    SliceOfSlice(table, m, limit);
  }

  /** The n-th page boundary falls on a row whose cursor reads as no bound. */
  ghost predicate LostBoundary<K(!new)>(l: Lister<K>, table: seq<K>, limit: nat, n: nat) {
    n >= 1 && n * limit < |table| && n * limit >= 1 && l.unbounded(table[n * limit - 1])
  }

  /** What n pages have done while every boundary before them held. */
  ghost predicate Walked<K(!new)>(l: Lister<K>, table: seq<K>, limit: nat, n: nat, rows: nat)
    requires limit >= 1
  {
    if n == 0 || rows < |table|
    then rows <= |table| && CursorAfter(l, table, limit, n) == Some(Marker(l, table, rows))
         && Collected(l, table, limit, n) == table[..rows]
    else CursorAfter(l, table, limit, n) == None && Collected(l, table, limit, n) == table
  }

  lemma {:induction false} StepTo<K(!new)>(
      l: Lister<K>, table: seq<K>, limit: nat, n: nat, n': nat, cursor: Text, page: Page<K>)
    requires limit >= 1 && n' == n + 1 && CursorAfter(l, table, limit, n) == Some(cursor)
    requires List(l, table, limit, cursor) == Some(page)
    ensures CursorAfter(l, table, limit, n') == if page.next == [] then None else Some(page.next)
    ensures Collected(l, table, limit, n') == Collected(l, table, limit, n) + page.items
  {
  }

  lemma {:induction false} StepDone<K(!new)>(l: Lister<K>, table: seq<K>, limit: nat, n: nat, n': nat)
    requires limit >= 1 && n' == n + 1 && CursorAfter(l, table, limit, n) == None
    ensures CursorAfter(l, table, limit, n') == None
    ensures Collected(l, table, limit, n') == Collected(l, table, limit, n)
  {
    assert Collected(l, table, limit, n') == Collected(l, table, limit, n) + [];
  }

  lemma {:induction false} Advance<K(!new)>(
      l: Lister<K>, table: seq<K>, limit: nat, n: nat, rows: nat, n': nat, rows': nat)
    requires limit >= 1 && n' == n + 1 && rows <= |table| && rows' == rows + limit
    requires CursorAfter(l, table, limit, n) == Some(Marker(l, table, rows))
    requires Collected(l, table, limit, n) == table[..rows]
    requires List(l, table, limit, Marker(l, table, rows)) ==
      if rows' < |table| then Some(Page(table[rows..rows'], Marker(l, table, rows'))) else Some(Page(table[rows..], []))
    requires rows' < |table| ==> Marker(l, table, rows') != []
    ensures Walked(l, table, limit, n', rows')
  {
    var page := List(l, table, limit, Marker(l, table, rows)).value;
    StepTo(l, table, limit, n, n', Marker(l, table, rows), page);
    SliceJoin(table, rows, rows');
  }

  lemma {:induction false} WalkNext<K(!new)>(
      l: Lister<K>, table: seq<K>, limit: nat, n: nat, rows: nat, n': nat, rows': nat)
    requires Listable(l, table) && limit >= 1 && n' == n + 1 && rows' == rows + limit
    requires Walked(l, table, limit, n, rows) && (n == 0 ==> rows == 0)
    requires 0 < rows < |table| ==> !l.unbounded(table[rows - 1])
    ensures Walked(l, table, limit, n', rows')
  {
    if n == 0 || rows < |table| {
      PageAt(l, table, limit, rows);
      MarkerSet(l, table, rows');
      Advance(l, table, limit, n, rows, n', rows');
    } else {
      StepDone(l, table, limit, n, n');
    }
  }

  lemma {:induction false} SliceJoin<K>(table: seq<K>, m: nat, n: nat)
    requires m <= |table| && m <= n
    ensures n < |table| ==> table[..m] + table[m..n] == table[..n]
    ensures table[..m] + table[m..] == table
  {
  }

  lemma {:induction false} MarkerSet<K(!new)>(l: Lister<K>, table: seq<K>, m: nat)
    requires Listable(l, table)
    ensures 0 < m <= |table| ==> Marker(l, table, m) != []
  {
    if 0 < m <= |table| { assert table[m - 1] in table; }
  }

  lemma {:induction false} WalkTo<K(!new)>(l: Lister<K>, table: seq<K>, limit: nat, n: nat, rows: nat)
    requires Listable(l, table) && limit >= 1 && rows == n * limit
    requires forall j: nat | j < n :: !LostBoundary(l, table, limit, j)
    ensures Walked(l, table, limit, n, rows)
  {
    if n > 0 {
      var m, before := n - 1, rows - limit;
      assert before == m * limit;
      WalkTo(l, table, limit, m, before);
      assert !LostBoundary(l, table, limit, m);
      WalkNext(l, table, limit, m, before, n, rows);
    }
  }

  lemma {:induction false} FirstLost<K(!new)>(l: Lister<K>, table: seq<K>, limit: nat, n: nat) returns (k: nat)
    requires LostBoundary(l, table, limit, n)
    ensures LostBoundary(l, table, limit, k) && forall j: nat | j < k :: !LostBoundary(l, table, limit, j)
  {
    k := 0;
    while !LostBoundary(l, table, limit, k)
      invariant k <= n && forall j: nat | j < k :: !LostBoundary(l, table, limit, j)
      decreases n - k
    {
      k := k + 1;
    }
  }

  /** A lost boundary sends the walk back to the first page. */
  lemma {:induction false} BackToStart<K(!new)>(l: Lister<K>, table: seq<K>, limit: nat, k: nat)
    returns (cursor: Text)
    requires Listable(l, table) && limit >= 1 && LostBoundary(l, table, limit, k)
    requires forall j: nat | j < k :: !LostBoundary(l, table, limit, j)
    ensures k >= 1 && CursorAfter(l, table, limit, k) == Some(cursor)
    ensures List(l, table, limit, cursor) == List(l, table, limit, [])
  {
    var rows := k * limit;
    cursor := Marker(l, table, rows);
    WalkTo(l, table, limit, k, rows);
    assert table[rows - 1] in table;
  }

  /** Where two cursors list the same page, the walk goes on the same. */
  lemma {:induction false} SameStep<K(!new)>(
      l: Lister<K>, table: seq<K>, limit: nat, a: nat, a': nat, b: nat, b': nat)
    requires limit >= 1 && a' == a + 1 && b' == b + 1
    requires var x, y := CursorAfter(l, table, limit, a), CursorAfter(l, table, limit, b);
      x == y || (x.Some? && y.Some? && List(l, table, limit, x.value) == List(l, table, limit, y.value))
    ensures CursorAfter(l, table, limit, a') == CursorAfter(l, table, limit, b')
  {
  }

  lemma {:induction false} StartCursor<K(!new)>(l: Lister<K>, table: seq<K>, limit: nat, n: nat)
    requires limit >= 1 && n == 0
    ensures CursorAfter(l, table, limit, n) == Some([])
  {
  }

  lemma {:induction false} Repeats<K(
      !new)>(l: Lister<K>, table: seq<K>, limit: nat, k: nat, cursor: Text, j: nat, n: nat)
    requires limit >= 1 && CursorAfter(l, table, limit, k) == Some(cursor) && j >= 1 && n == k + j
    requires List(l, table, limit, cursor) == List(l, table, limit, [])
    ensures CursorAfter(l, table, limit, n) == CursorAfter(l, table, limit, j)
    decreases j
  {
    var i, m := j - 1, n - 1;
    if i == 0 {
      StartCursor(l, table, limit, i);
    } else {
      Repeats(l, table, limit, k, cursor, i, m);
    }
    SameStep(l, table, limit, m, n, i, j);
  }

  lemma {:induction false} SomeBefore<K(!new)>(l: Lister<K>, table: seq<K>, limit: nat, m: nat, n: nat)
    requires limit >= 1 && m <= n && CursorAfter(l, table, limit, n).Some?
    ensures CursorAfter(l, table, limit, m).Some?
    decreases n
  {
    if m < n { SomeBefore(l, table, limit, m, n - 1); }
  }

  lemma {:induction false} NeverEnds<K(!new)>(l: Lister<K>, table: seq<K>, limit: nat, k: nat, cursor: Text, n: nat)
    requires limit >= 1 && k >= 1 && CursorAfter(l, table, limit, k) == Some(cursor)
    requires List(l, table, limit, cursor) == List(l, table, limit, [])
    ensures CursorAfter(l, table, limit, n).Some?
    decreases n
  {
    if n <= k {
      SomeBefore(l, table, limit, n, k);
    } else {
      var j := n - k;
      Repeats(l, table, limit, k, cursor, j, n);
      NeverEnds(l, table, limit, k, cursor, j);
    }
  }

  /** The walk ends after some number of pages. */
  ghost predicate Ends<K(!new)>(l: Lister<K>, table: seq<K>, limit: nat)
    requires limit >= 1
  {
    exists n: nat :: CursorAfter(l, table, limit, n) == None
  }

  /**
    Following next_cursor from the empty cursor ends iff no page boundary falls on a row with the zero
    instant, and then the pages concatenate to the whole ordered list, no row lost or repeated.
  */
  lemma {:induction false} WalkIsExact<K(!new)>(l: Lister<K>, table: seq<K>, limit: nat)
    requires Listable(l, table) && limit >= 1
    ensures Ends(l, table, limit) <==> forall n: nat :: !LostBoundary(l, table, limit, n)
    ensures forall n: nat | CursorAfter(l, table, limit, n) == None :: Collected(l, table, limit, n) == table
  {
    if lost: nat :| LostBoundary(l, table, limit, lost) {
      var k := FirstLost(l, table, limit, lost);
      var cursor := BackToStart(l, table, limit, k);
      forall n: nat ensures CursorAfter(l, table, limit, n).Some? {
        NeverEnds(l, table, limit, k, cursor, n);
      }
    } else {
      var n := |table| + 1;
      var rows := n * limit;
      assert rows >= n;
      WalkTo(l, table, limit, n, rows);
      forall m: nat | CursorAfter(l, table, limit, m) == None ensures Collected(l, table, limit, m) == table {
        WalkTo(l, table, limit, m, m * limit);
      }
    }
  }

  // --- the two lists --------------------------------------------------------------------------------------------

  /** Most recent first, then by id. */
  predicate CertBefore(a: CertKey, b: CertKey) {
    a.at > b.at || (a.at == b.at && Less(a.id, b.id))
  }

  predicate ObsBefore(a: ObsKey, b: ObsKey) {
    a.at > b.at
    || (a.at == b.at && (Less(a.agent, b.agent) || (a.agent == b.agent && Less(a.store, b.store))))
  }

  function CertLister(tt: TimeText): Lister<CertKey> {
    Lister(CertBefore, (k: CertKey) => k.at == ZERO_TIME, (k: CertKey) => EncodeCert(tt, k),
           (raw: Text) => DecodeCert(tt, raw))
  }

  function ObsLister(tt: TimeText): Lister<ObsKey> {
    Lister(ObsBefore, (k: ObsKey) => k.at == ZERO_TIME, (k: ObsKey) => EncodeObs(tt, k),
           (raw: Text) => DecodeObs(tt, raw))
  }

  lemma {:induction false} NotLessSelf(a: Id)
    ensures !Less(a, a)
  {
    if a != "" { NotLessSelf(a[1..]); }
  }

  lemma {:induction false} CertOrderStrict()
    ensures StrictOrder(CertBefore)
  {
    forall a: CertKey ensures !CertBefore(a, a) { NotLessSelf(a.id); }
    forall a: CertKey, b: CertKey, c: CertKey | CertBefore(a, b) && CertBefore(b, c) ensures CertBefore(a, c) {
      if a.at == b.at == c.at { LessTransitive(a.id, b.id, c.id); }
    }
  }

  lemma {:induction false} ObsOrderStrict()
    ensures StrictOrder(ObsBefore)
  {
    forall a: ObsKey ensures !ObsBefore(a, a) { NotLessSelf(a.agent); NotLessSelf(a.store); }
    forall a: ObsKey, b: ObsKey, c: ObsKey | ObsBefore(a, b) && ObsBefore(b, c) ensures ObsBefore(a, c) {
      if a.at == b.at == c.at {
        if Less(a.agent, b.agent) && Less(b.agent, c.agent) { LessTransitive(a.agent, b.agent, c.agent); }
        if Less(a.store, b.store) && Less(b.store, c.store) { LessTransitive(a.store, b.store, c.store); }
      }
    }
  }

  /** Most recent first; at one instant by id. */
  ghost predicate CertsMostRecentFirst(table: seq<CertKey>) {
    forall i, j | 0 <= i < j < |table| ::
      table[i].at > table[j].at || (table[i].at == table[j].at && Less(table[i].id, table[j].id))
  }

  /** Most recent first; at one instant by agent, then by store. */
  ghost predicate ObsMostRecentFirst(table: seq<ObsKey>) {
    forall i, j | 0 <= i < j < |table| ::
      || table[i].at > table[j].at
      || (table[i].at == table[j].at && Less(table[i].agent, table[j].agent))
      || (table[i].at == table[j].at && table[i].agent == table[j].agent && Less(table[i].store, table[j].store))
  }

  /** The limit a request asks for: 50 for 0, itself up to 200, nothing else. */
  ghost predicate AsksFor(rawLimit: int, limit: nat) {
    0 <= rawLimit <= 200 && limit == if rawLimit == 0 then 50 else rawLimit
  }

  /** The certificate list, over any ordered table of non-empty ids. */
  lemma {:induction false} CertificateWalk(tt: TimeText, table: seq<CertKey>, limit: nat)
    requires Faithful(tt) && CertsMostRecentFirst(table) && limit >= 1
    requires forall k | k in table :: k.id != []
    ensures var l := CertLister(tt);
      && (Ends(l, table, limit) <==> forall n: nat :: !LostBoundary(l, table, limit, n))
      && (forall n: nat | CursorAfter(l, table, limit, n) == None :: Collected(l, table, limit, n) == table)
      && ((forall k | k in table :: k.at != ZERO_TIME) ==> Ends(l, table, limit))
  {
    CertOrderStrict();
    forall k | k in table ensures EncodeCert(tt, k) != [] && DecodeCert(tt, EncodeCert(tt, k)) == Some(k) {
      CertRoundTrip(tt, k);
    }
    WalkIsExact(CertLister(tt), table, limit);
    if forall k | k in table :: k.at != ZERO_TIME {
      forall n: nat ensures !LostBoundary(CertLister(tt), table, limit, n) {
        if n >= 1 && 1 <= n * limit < |table| { assert table[n * limit - 1] in table; }
      }
    }
  }

  /** The observation list, over any ordered table whose agent ids hold no separator. */
  lemma {:induction false} ObservationWalk(tt: TimeText, table: seq<ObsKey>, limit: nat)
    requires Faithful(tt) && ObsMostRecentFirst(table) && limit >= 1
    requires forall k | k in table :: k.agent != [] && '|' !in k.agent && k.store != []
    ensures var l := ObsLister(tt);
      && (Ends(l, table, limit) <==> forall n: nat :: !LostBoundary(l, table, limit, n))
      && (forall n: nat | CursorAfter(l, table, limit, n) == None :: Collected(l, table, limit, n) == table)
      && ((forall k | k in table :: k.at != ZERO_TIME) ==> Ends(l, table, limit))
  {
    ObsOrderStrict();
    forall k | k in table ensures EncodeObs(tt, k) != [] && DecodeObs(tt, EncodeObs(tt, k)) == Some(k) {
      ObsRoundTrip(tt, k);
    }
    WalkIsExact(ObsLister(tt), table, limit);
    if forall k | k in table :: k.at != ZERO_TIME {
      forall n: nat ensures !LostBoundary(ObsLister(tt), table, limit, n) {
        if n >= 1 && 1 <= n * limit < |table| { assert table[n * limit - 1] in table; }
      }
    }
  }

  /** Two rows at the zero instant, one row a page: the first page comes back for ever. */
  lemma {:induction false} ZeroInstantLoops(tt: TimeText) returns (table: seq<CertKey>)
    requires Faithful(tt)
    ensures CertsMostRecentFirst(table) && forall k | k in table :: k.id != []
    ensures LostBoundary(CertLister(tt), table, 1, 1) && !Ends(CertLister(tt), table, 1)
  {
    table := [CertKey(ZERO_TIME, "a"), CertKey(ZERO_TIME, "b")];
    assert Less("a", "b");
    CertificateWalk(tt, table, 1);
    assert LostBoundary(CertLister(tt), table, 1, 1);
  }

  /** A request resuming after m rows gets the next rows, at most the limit, and a cursor iff more follow. */
  lemma {:induction false} CertificatePageIsNextSlice(
      tt: TimeText, table: seq<CertKey>, rawLimit: int, limit: nat, m: nat)
    requires Faithful(tt) && CertsMostRecentFirst(table) && AsksFor(rawLimit, limit)
    requires (forall k | k in table :: k.id != []) && m <= |table| && (m > 0 ==> table[m - 1].at != ZERO_TIME)
    ensures ListCertificates(tt, table, rawLimit, if m == 0 then [] else EncodeCert(tt, table[m - 1])) ==
      if m + limit < |table| then Some(Page(table[m..m + limit], EncodeCert(tt, table[m + limit - 1])))
      else Some(Page(table[m..], []))
  {
    CertOrderStrict();
    forall k | k in table ensures EncodeCert(tt, k) != [] && DecodeCert(tt, EncodeCert(tt, k)) == Some(k) {
      CertRoundTrip(tt, k);
    }
    PageAt(CertLister(tt), table, limit, m);
  }

  /** The same for observations, whose cursor carries the agent before its separator. */
  lemma {:induction false} ObservationPageIsNextSlice(
      tt: TimeText, table: seq<ObsKey>, rawLimit: int, limit: nat, m: nat)
    requires Faithful(tt) && ObsMostRecentFirst(table) && AsksFor(rawLimit, limit)
    requires forall k | k in table :: k.agent != [] && '|' !in k.agent && k.store != []
    requires m <= |table| && (m > 0 ==> table[m - 1].at != ZERO_TIME)
    ensures ListObservations(tt, table, rawLimit, if m == 0 then [] else EncodeObs(tt, table[m - 1])) ==
      if m + limit < |table| then Some(Page(table[m..m + limit], EncodeObs(tt, table[m + limit - 1])))
      else Some(Page(table[m..], []))
  {
    ObsOrderStrict();
    forall k | k in table ensures EncodeObs(tt, k) != [] && DecodeObs(tt, EncodeObs(tt, k)) == Some(k) {
      ObsRoundTrip(tt, k);
    }
    PageAt(ObsLister(tt), table, limit, m);
  }

  /** A limit out of range and a malformed cursor are refused. */
  lemma {:induction false} ListRefuses(tt: TimeText, certs: seq<CertKey>, obs: seq<ObsKey>, rawLimit: int, cursor: Text)
    ensures ListCertificates(tt, certs, rawLimit, cursor) == None <==>
      (forall limit: nat :: !AsksFor(rawLimit, limit)) || DecodeCert(tt, cursor) == None
    ensures ListObservations(tt, obs, rawLimit, cursor) == None <==>
      (forall limit: nat :: !AsksFor(rawLimit, limit)) || DecodeObs(tt, cursor) == None
  {
    if 0 <= rawLimit <= 200 { assert AsksFor(rawLimit, if rawLimit == 0 then 50 else rawLimit); }
  }
}
