/**
  The GDM scanner (class `GDM` in gdm.py): the processing of the reply datagrams
  gathered during one scan, and the queries over the discovered entries.

  The socket is not part of this model: a scan takes the replies it receives,
  already decoded to text and in arrival order, as its input.
*/
module Discovery {
  import opened Wrappers
  import opened Text

  /** A network address as Python's `recvfrom` reports it: `(host, port)`. */
  datatype Address = Address(host: string, port: int)

  /** One reply datagram received during a scan: its decoded text and its sender. */
  datatype Reply = Reply(text: string, from: Address)

  /** The header fields of a reply: the dictionary `ddata`. */
  type Fields = map<string, string>

  /** One discovered device: the dictionary `{'data': ..., 'from': ...}`. */
  datatype Entry = Entry(data: Fields, from: Address)

  /** One parsed header line, `(k, v.strip())`. */
  datatype Field = Field(name: string, value: string)

  /** The exceptions that end a scan or a query. */
  datatype GdmError =
    | EmptyReply                   // `data.splitlines()[0]` on a reply that has no line: IndexError
    | TooManyColons(line: string)  // `k, v = line.split(':')` on a line with two or more colons: ValueError
    | MissingField(name: string)   // `entry['data'][name]` on an entry without that field: KeyError

  /** What the scanner makes of one reply that raises nothing. */
  datatype Verdict = Rejected | Accepted(fields: Fields)

  const StatusOk := "200 OK"
  const ResourceIdentifier := "Resource-Identifier"
  const ContentType := "Content-Type"

  // ---------------------------------------------------------------------------
  // Parsing one reply
  // ---------------------------------------------------------------------------

  /** The key of a header line: the text before its first colon, kept verbatim. */
  function KeyOf(line: string): (key: string)
    requires ':' in line
    ensures ':' !in key && |key| < |line| && line[..|key|] == key && line[|key|] == ':'
  {
    line[..IndexOf(line, ':')]
  }

  /** The text after the first colon of a header line, before stripping. */
  function RawValueOf(line: string): (raw: string)
    requires ':' in line
    ensures line == KeyOf(line) + ":" + raw
  {
    line[IndexOf(line, ':') + 1..]
  }

  /**
    One line of the header comprehension: a line without a colon is skipped,
    a line with exactly one colon gives its verbatim key and its stripped
    value, and a line with more colons cannot be unpacked into `k, v`.
  */
  function ParseLine(line: string): (r: Result<Option<Field>, GdmError>)
    ensures ':' !in line ==> r == Success(None)
    ensures Count(line, ':') > 1 ==> r == Failure(TooManyColons(line))
    ensures Count(line, ':') == 1 ==> r == Success(Some(Field(KeyOf(line), Strip(RawValueOf(line)))))
  {
    if ':' !in line then Success(None)
    else
      var parts := Split(line, ':');
      if |parts| != 2 then Failure(TooManyColons(line))
      else
        SplitAtSingle(line, ':');
        Success(Some(Field(parts[0], Strip(parts[1]))))
  }

  /**
    The dictionary comprehension over the lines of a reply. Lines are taken in
    order; the first line that cannot be unpacked raises, and a later line with
    the same key replaces the value of an earlier one.
  */
  function ParseHeaders(lines: seq<string>): (r: Result<Fields, GdmError>)
    ensures r.Success? <==> forall k :: 0 <= k < |lines| ==> Count(lines[k], ':') <= 1
    ensures r.Failure? ==> r.error.TooManyColons?
  {
    if lines == [] then Success(map[])
    else
      match ParseLine(lines[0])
      case Failure(e) => Failure(e)
      case Success(head) =>
        match ParseHeaders(lines[1..])
        case Failure(e) => Failure(e)
        case Success(rest) =>
          Success(if head.Some? then map[head.value.name := head.value.value] + rest else rest)
  }

  /**
    One received reply: a reply without a first line raises; one whose first
    line does not contain "200 OK" is ignored; otherwise its header lines are
    parsed, which may raise.
  */
  function ProcessReply(text: string): (r: Result<Verdict, GdmError>)
    ensures r == Failure(EmptyReply) <==> text == []
    ensures r == Success(Rejected) <==> text != [] && !Contains(SplitLines(text)[0], StatusOk)
    ensures r.Success? && r.value.Accepted? ==>
              && Contains(SplitLines(text)[0], StatusOk)
              && ParseHeaders(SplitLines(text)) == Success(r.value.fields)
    ensures r.Failure? && text != [] ==>
              && Contains(SplitLines(text)[0], StatusOk)
              && ParseHeaders(SplitLines(text)) == Failure(r.error)
  {
    var lines := SplitLines(text);
    if lines == [] then Failure(EmptyReply)
    else if !Contains(lines[0], StatusOk) then Success(Rejected)
    else
      match ParseHeaders(lines)
      case Failure(e) => Failure(e)
      case Success(fields) => Success(Accepted(fields))
  }

  /** The line keys present in the result are exactly the keys of the lines that hold a colon. */
  lemma {:induction false} ParseHeadersKeys(lines: seq<string>, key: string)
    requires ParseHeaders(lines).Success?
    ensures key in ParseHeaders(lines).value <==>
              exists k :: 0 <= k < |lines| && ':' in lines[k] && KeyOf(lines[k]) == key
    decreases |lines|
  {
    if lines != [] {
      ParseHeadersKeys(lines[1..], key);
      if exists k :: 1 <= k < |lines| && ':' in lines[k] && KeyOf(lines[k]) == key {
        var k :| 1 <= k < |lines| && ':' in lines[k] && KeyOf(lines[k]) == key;
        assert lines[1..][k - 1] == lines[k];
      }
    }
  }

  /** The value of a key is the stripped value of the LAST line that declares it. */
  lemma {:induction false} ParseHeadersLastWins(lines: seq<string>, k: nat)
    requires ParseHeaders(lines).Success?
    requires k < |lines| && ':' in lines[k]
    requires forall j :: k < j < |lines| && ':' in lines[j] ==> KeyOf(lines[j]) != KeyOf(lines[k])
    ensures KeyOf(lines[k]) in ParseHeaders(lines).value
    ensures ParseHeaders(lines).value[KeyOf(lines[k])] == Strip(RawValueOf(lines[k]))
    decreases k
  {
    var key := KeyOf(lines[k]);
    var rest := ParseHeaders(lines[1..]).value;
    if k == 0 {
      ParseHeadersKeys(lines[1..], key);
      forall j | 0 <= j < |lines[1..]| && ':' in lines[1..][j]
        ensures KeyOf(lines[1..][j]) != key
      {
        assert lines[1..][j] == lines[j + 1];
      }
    } else {
      assert lines[1..][k - 1] == lines[k];
      forall j | k - 1 < j < |lines[1..]| && ':' in lines[1..][j]
        ensures KeyOf(lines[1..][j]) != KeyOf(lines[1..][k - 1])
      {
        assert lines[1..][j] == lines[j + 1];
      }
      ParseHeadersLastWins(lines[1..], k - 1);
    }
  }

  /** A scan raises on the first header line of a reply that has more than one colon. */
  lemma {:induction false} ParseHeadersFirstError(lines: seq<string>, k: nat)
    requires k < |lines| && Count(lines[k], ':') > 1
    requires forall j :: 0 <= j < k ==> Count(lines[j], ':') <= 1
    ensures ParseHeaders(lines) == Failure(TooManyColons(lines[k]))
    decreases k
  {
    if k > 0 {
      var rest := lines[1..];
      assert rest[k - 1] == lines[k];
      forall j | 0 <= j < k - 1
        ensures Count(rest[j], ':') <= 1
      {
        assert rest[j] == lines[j + 1];
      }
      ParseHeadersFirstError(rest, k - 1);
      assert ParseLine(lines[0]).Success?;
    }
  }

  // ---------------------------------------------------------------------------
  // One scan over a sequence of replies
  // ---------------------------------------------------------------------------

  /** `ddata.get('Resource-Identifier')`. */
  function Identifier(fields: Fields): (id: Option<string>)
    ensures id.Some? <==> ResourceIdentifier in fields
    ensures id.Some? ==> id.value == fields[ResourceIdentifier]
  {
    if ResourceIdentifier in fields then Some(fields[ResourceIdentifier]) else None
  }

  /** Python truthiness of an identifier: present and not the empty string. */
  predicate IsTruthy(id: Option<string>): (b: bool)
    ensures b <==> id != None && id != Some("")
  {
    id.Some? && id.value != ""
  }

  /** A reply as the receive loop sees it once `ProcessReply` has run: its verdict and its sender. */
  datatype Reception = Reception(verdict: Result<Verdict, GdmError>, from: Address)

  /** The handling of one reply by `ProcessReply`, paired with its sender. */
  function Receive(reply: Reply): Reception {
    Reception(ProcessReply(reply.text), reply.from)
  }

  /** The receptions of a sequence of replies, in arrival order. */
  function Receptions(rs: seq<Reply>): (xs: seq<Reception>)
    ensures |xs| == |rs|
  {
    if rs == [] then [] else [Receive(rs[0])] + Receptions(rs[1..])
  }

  /** Reception `i` is the handling of reply `i`. */
  lemma {:induction false} ReceptionAt(rs: seq<Reply>, i: nat)
    requires i < |rs|
    ensures Receptions(rs)[i] == Receive(rs[i])
  {
    if i > 0 {
      ReceptionAt(rs[1..], i - 1);
    }
  }

  /** What the scan has built so far: `self.entries` and `known_responses`. */
  datatype ScanState = ScanState(entries: seq<Entry>, known: seq<Option<string>>)

  /** The state a scan stops in, and the exception it raised, if any. */
  datatype ScanOutcome = ScanOutcome(state: ScanState, error: Option<GdmError>)

  /** One pass of the receive loop: the handling of reception `x` after the outcome `o`. */
  function Step(o: ScanOutcome, x: Reception): (r: ScanOutcome)
    ensures o.error.Some? ==> r == o
    ensures r.error.Some? ==> r.state == o.state
    ensures o.state.entries <= r.state.entries && o.state.known <= r.state.known
    ensures |r.state.entries| - |o.state.entries| == |r.state.known| - |o.state.known| <= 1
  {
    if o.error.Some? then o
    else
      match x.verdict
      case Failure(e) => ScanOutcome(o.state, Some(e))
      case Success(Rejected) => o
      case Success(Accepted(fields)) =>
        var id := Identifier(fields);
        if IsTruthy(id) && id in o.state.known then o
        else ScanOutcome(ScanState(o.state.entries + [Entry(fields, x.from)], o.state.known + [id]), None)
  }

  /**
    The scan of the first `n` receptions of `xs`, starting from empty lists and
    stopping at the first one that raises. An accepted reply is appended
    unless its identifier is truthy and was already recorded; its identifier
    (possibly missing or empty) is recorded whenever it is appended.
  */
  function Collected(xs: seq<Reception>, n: nat): (r: ScanOutcome)
    requires n <= |xs|
    ensures |r.state.entries| == |r.state.known| <= n
  {
    if n == 0 then ScanOutcome(ScanState([], []), None)
    else Step(Collected(xs, n - 1), xs[n - 1])
  }

  /**
    Proof plumbing for `Update`, not an operation of its own: it hands the
    loop reception `i` as an element of `Receptions(rs)`, so that the loop's
    proof never unfolds `ProcessReply`. What the reception is, is `Receive`.
  */
  method HandleReply(rs: seq<Reply>, i: nat) returns (x: Reception)
    requires i < |rs|
    ensures x == Receptions(rs)[i]
  {
    x := Receive(rs[i]);
    ReceptionAt(rs, i);
  }

  /** The scan of all of `rs`: what `update` leaves behind. */
  function Scanned(rs: seq<Reply>): (r: ScanOutcome)
    ensures |r.state.entries| <= |rs|
  {
    Collected(Receptions(rs), |rs|)
  }

  // A reference description of the entries of a scan, reply by reply.

  /** Reception `i` has a "200 OK" first line and parses. */
  predicate AcceptedAt(xs: seq<Reception>, i: nat)
    requires i < |xs|
  {
    xs[i].verdict.Success? && xs[i].verdict.value.Accepted?
  }

  /** The entry that reception `i` would make. */
  function EntryAt(xs: seq<Reception>, i: nat): Entry
    requires i < |xs| && AcceptedAt(xs, i)
  {
    Entry(xs[i].verdict.value.fields, xs[i].from)
  }

  /** Some reply before index `n` was accepted with identifier `id`. */
  ghost predicate AnnouncedBefore(xs: seq<Reception>, n: nat, id: Option<string>)
    requires n <= |xs|
  {
    exists j :: 0 <= j < n && AcceptedAt(xs, j) && Identifier(EntryAt(xs, j).data) == id
  }

  /**
    Reception `i` gives an entry: it is accepted, and either its identifier is
    missing or empty, or no earlier accepted reply carried that identifier.
  */
  ghost predicate KeptAt(xs: seq<Reception>, i: nat)
    requires i < |xs|
  {
    && AcceptedAt(xs, i)
    && var id := Identifier(EntryAt(xs, i).data);
       !(IsTruthy(id) && AnnouncedBefore(xs, i, id))
  }

  /** The entries of the kept replies among the first `n`, in arrival order. */
  ghost function Expected(xs: seq<Reception>, n: nat): seq<Entry>
    requires n <= |xs|
  {
    if n == 0 then [] else Expected(xs, n - 1) + Contribution(xs, n - 1)
  }

  /** The entry reception `i` contributes, if it is kept. */
  ghost function Contribution(xs: seq<Reception>, i: nat): seq<Entry>
    requires i < |xs|
  {
    if KeptAt(xs, i) then [EntryAt(xs, i)] else []
  }

  /** No two entries share a truthy identifier. */
  ghost predicate UniqueIdentifiers(entries: seq<Entry>) {
    forall i, j :: 0 <= i < j < |entries| && IsTruthy(Identifier(entries[i].data)) ==>
      Identifier(entries[i].data) != Identifier(entries[j].data)
  }

  /** `known_responses` holds the identifier of every entry, in the same order. */
  lemma {:induction false} CollectedKnownTracksEntries(xs: seq<Reception>, n: nat)
    requires n <= |xs|
    ensures var st := Collected(xs, n).state;
            && |st.known| == |st.entries|
            && forall k :: 0 <= k < |st.known| ==> st.known[k] == Identifier(st.entries[k].data)
  {
    if n > 0 {
      CollectedKnownTracksEntries(xs, n - 1);
    }
  }

  /** After a scan, whether it completed or raised, no two entries share a truthy identifier. */
  lemma {:induction false} CollectedIdentifiersUnique(xs: seq<Reception>, n: nat)
    requires n <= |xs|
    ensures UniqueIdentifiers(Collected(xs, n).state.entries)
  {
    if n > 0 {
      CollectedIdentifiersUnique(xs, n - 1);
      CollectedKnownTracksEntries(xs, n - 1);
      var o := Collected(xs, n - 1);
      var st := Step(o, xs[n - 1]).state;
      if st != o.state {
        var last := |st.entries| - 1;
        assert st.entries[..last] == o.state.entries;
        forall i | 0 <= i < last && IsTruthy(Identifier(st.entries[i].data))
          ensures Identifier(st.entries[i].data) != Identifier(st.entries[last].data)
        {
          assert st.entries[i] == o.state.entries[i];
          assert o.state.known[i] == Identifier(st.entries[i].data);
        }
      }
    }
  }

  /** Once a scan has raised, later replies change nothing. */
  lemma {:induction false} CollectedStopsAtError(xs: seq<Reception>, n: nat, m: nat)
    requires n <= m <= |xs|
    requires Collected(xs, n).error.Some?
    ensures Collected(xs, m) == Collected(xs, n)
    decreases m
  {
    if m > n {
      CollectedStopsAtError(xs, n, m - 1);
    }
  }

  /** A scan in which no reply raises completes. */
  lemma {:induction false} CollectedCompletes(xs: seq<Reception>, n: nat)
    requires n <= |xs|
    requires forall j :: 0 <= j < n ==> xs[j].verdict.Success?
    ensures Collected(xs, n).error == None
  {
    if n > 0 {
      CollectedCompletes(xs, n - 1);
    }
  }

  /**
    A scan in which some reply raises, raises the exception of the first
    such reply, and keeps the entries gathered from the replies before it.
  */
  lemma {:induction false} CollectedFailsAt(xs: seq<Reception>, i: nat, n: nat)
    requires i < n <= |xs|
    requires xs[i].verdict.Failure?
    requires forall j :: 0 <= j < i ==> xs[j].verdict.Success?
    ensures Collected(xs, n) == ScanOutcome(Collected(xs, i).state, Some(xs[i].verdict.error))
  {
    CollectedCompletes(xs, i);
    CollectedStopsAtError(xs, i + 1, n);
  }

  /**
    A completed scan yields exactly the entries of the kept replies, in
    arrival order; the identifiers it has recorded are those announced by the
    accepted replies.
  */
  lemma {:induction false} CollectedIsExpected(xs: seq<Reception>, n: nat)
    requires n <= |xs|
    requires Collected(xs, n).error == None
    ensures Collected(xs, n).state.entries == Expected(xs, n)
    ensures forall id :: IsTruthy(id) ==> (id in Collected(xs, n).state.known <==> AnnouncedBefore(xs, n, id))
  {
    if n > 0 {
      var o := Collected(xs, n - 1);
      assert o.error == None;
      CollectedIsExpected(xs, n - 1);
      var i := n - 1;
      forall id | IsTruthy(id)
        ensures AnnouncedBefore(xs, n, id) <==>
                  AnnouncedBefore(xs, i, id) || (AcceptedAt(xs, i) && Identifier(EntryAt(xs, i).data) == id)
      {
        if AnnouncedBefore(xs, n, id) && !AnnouncedBefore(xs, i, id) {
          var j :| 0 <= j < n && AcceptedAt(xs, j) && Identifier(EntryAt(xs, j).data) == id;
          assert j == i;
        }
        if AcceptedAt(xs, i) && Identifier(EntryAt(xs, i).data) == id {
          assert AnnouncedBefore(xs, n, id);
        }
        if AnnouncedBefore(xs, i, id) {
          var j :| 0 <= j < i && AcceptedAt(xs, j) && Identifier(EntryAt(xs, j).data) == id;
          assert AnnouncedBefore(xs, n, id);
        }
      }
    }
  }

  /** A kept reply appears among the entries of every completed scan that covers it. */
  lemma {:induction false} KeptReplyListed(xs: seq<Reception>, i: nat, n: nat)
    requires i < n <= |xs|
    requires KeptAt(xs, i)
    ensures EntryAt(xs, i) in Expected(xs, n)
    decreases n
  {
    if n - 1 > i {
      KeptReplyListed(xs, i, n - 1);
      assert Expected(xs, n) == Expected(xs, n - 1) + Contribution(xs, n - 1);
    } else {
      assert Contribution(xs, i) == [EntryAt(xs, i)];
    }
  }

  /** Every entry comes from a kept reply. */
  lemma {:induction false} ListedReplyKept(xs: seq<Reception>, n: nat, e: Entry)
    requires n <= |xs|
    requires e in Expected(xs, n)
    ensures exists i :: 0 <= i < n && KeptAt(xs, i) && EntryAt(xs, i) == e
  {
    if e !in Expected(xs, n - 1) {
      assert KeptAt(xs, n - 1) && e == EntryAt(xs, n - 1);
    } else {
      ListedReplyKept(xs, n - 1, e);
    }
  }

  /**
    The first accepted reply with a given identifier, and every accepted reply
    without a (non-empty) identifier, is among the entries of a completed scan.
  */
  lemma {:induction false} FirstArrivalKept(rs: seq<Reply>, i: nat, fields: Fields)
    requires i < |rs| && Scanned(rs).error == None
    requires ProcessReply(rs[i].text) == Success(Accepted(fields))
    requires var id := Identifier(fields);
             !IsTruthy(id) || !AnnouncedBefore(Receptions(rs), i, id)
    ensures Entry(fields, rs[i].from) in Scanned(rs).state.entries
  {
    ReceptionAt(rs, i);
    CollectedIsExpected(Receptions(rs), |rs|);
    KeptReplyListed(Receptions(rs), i, |rs|);
  }

  /**
    A rejected reply, or a later reply repeating a truthy identifier, changes
    neither the entries nor the recorded identifiers.
  */
  lemma {:induction false} DroppedReplyAddsNothing(xs: seq<Reception>, i: nat)
    requires i < |xs| && xs[i].verdict.Success? && !KeptAt(xs, i)
    ensures Collected(xs, i + 1).state == Collected(xs, i).state
  {
    if Collected(xs, i).error == None && AcceptedAt(xs, i) {
      CollectedIsExpected(xs, i);
    }
  }

  /**
    The same accepted reply received twice, from `a` and then from `b`: the
    second copy is dropped exactly when the identifier is truthy.
  */
  lemma {:induction false} RepeatedReply(text: string, fields: Fields, a: Address, b: Address)
    requires ProcessReply(text) == Success(Accepted(fields))
    ensures var id := Identifier(fields);
            Scanned([Reply(text, a), Reply(text, b)]) ==
              if IsTruthy(id) then ScanOutcome(ScanState([Entry(fields, a)], [id]), None)
              else ScanOutcome(ScanState([Entry(fields, a), Entry(fields, b)], [id, id]), None)
  {
    var x := Reception(Success(Accepted(fields)), a);
    var y := Reception(Success(Accepted(fields)), b);
    assert Receptions([Reply(text, a), Reply(text, b)]) == [x, y];
    RepeatedAcceptance(x, y);
  }

  /** The scan of two acceptances with the same fields. */
  lemma {:induction false} RepeatedAcceptance(x: Reception, y: Reception)
    requires x.verdict.Success? && x.verdict.value.Accepted? && y.verdict == x.verdict
    ensures var fields := x.verdict.value.fields;
            var id := Identifier(fields);
            Collected([x, y], 2) ==
              if IsTruthy(id) then ScanOutcome(ScanState([Entry(fields, x.from)], [id]), None)
              else ScanOutcome(ScanState([Entry(fields, x.from), Entry(fields, y.from)], [id, id]), None)
  {
    assert Collected([x, y], 1) == ScanOutcome(ScanState([Entry(x.verdict.value.fields, x.from)], [Identifier(x.verdict.value.fields)]), None);
  }

  // ---------------------------------------------------------------------------
  // Queries over the entries
  // ---------------------------------------------------------------------------

  /** `a` is `b` with some elements left out, the others in their order. */
  ghost predicate IsSubsequence<T>(a: seq<T>, b: seq<T>)
    decreases |b|
  {
    || a == []
    || (b != [] && ((a[0] == b[0] && IsSubsequence(a[1..], b[1..])) || IsSubsequence(a, b[1..])))
  }

  /** A list comprehension with a condition: the elements of `s` that `keep` admits, in order. */
  function Filter<T(==,!new)>(s: seq<T>, keep: T -> bool): (r: seq<T>)
    ensures IsSubsequence(r, s)
    ensures forall x :: multiset(r)[x] == if keep(x) then multiset(s)[x] else 0
  {
    if s == [] then []
    else
      assert s == [s[0]] + s[1..];
      var rest := Filter(s[1..], keep);
      if keep(s[0]) then
        assert ([s[0]] + rest)[1..] == rest;
        [s[0]] + rest
      else
        rest
  }

  lemma {:induction false} FilterKeepsAll<T(!new)>(s: seq<T>, keep: T -> bool)
    requires forall k :: 0 <= k < |s| ==> keep(s[k])
    ensures Filter(s, keep) == s
  {
    if s != [] {
      FilterKeepsAll(s[1..], keep);
    }
  }

  /** `value in entry['data']['Content-Type']`, for an entry that has the field. */
  predicate ContentTypeHas(e: Entry, value: string) {
    ContentType in e.data && Contains(e.data[ContentType], value)
  }

  /** Every `(key, value)` item of `query` is an item of the entry's data. */
  predicate HasItems(e: Entry, query: Fields) {
    forall key :: key in query ==> key in e.data && e.data[key] == query[key]
  }

  /**
    The comprehension of `find_by_content_type`: it raises as soon as an entry
    lacks the field, and otherwise keeps the entries whose content type holds
    `value`.
  */
  function SelectByContentType(entries: seq<Entry>, value: string): (r: Result<seq<Entry>, GdmError>)
    ensures r.Failure? <==> exists k :: 0 <= k < |entries| && ContentType !in entries[k].data
    ensures r.Failure? ==> r.error == MissingField(ContentType)
    ensures r.Success? ==> r.value == Filter(entries, e => ContentTypeHas(e, value))
  {
    if forall k :: 0 <= k < |entries| ==> ContentType in entries[k].data
    then Success(Filter(entries, e => ContentTypeHas(e, value)))
    else Failure(MissingField(ContentType))
  }

  /** The comprehension of `find_by_data`: the entries that hold every item of `query`. */
  function SelectByData(entries: seq<Entry>, query: Fields): (r: seq<Entry>)
    ensures IsSubsequence(r, entries)
    ensures forall e :: multiset(r)[e] == if HasItems(e, query) then multiset(entries)[e] else 0
  {
    Filter(entries, e => HasItems(e, query))
  }

  /** An empty query matches every entry. */
  lemma {:induction false} SelectByDataEmptyQuery(entries: seq<Entry>)
    ensures SelectByData(entries, map[]) == entries
  {
    FilterKeepsAll(entries, e => HasItems(e, map[]));
  }

  // ---------------------------------------------------------------------------
  // The scanner object
  // ---------------------------------------------------------------------------

  class Gdm {
    /** The entries found by the latest scan. */
    var entries: seq<Entry>

    constructor ()
      ensures entries == []
    {
      entries := [];
    }

    /**
      `update`: forget the previous scan, then handle the replies in arrival
      order. Returns the exception that ended the scan, if any; the entries
      gathered before it stay in place.
    */
    method Update(replies: seq<Reply>) returns (error: Option<GdmError>)
      modifies this
      ensures entries == Scanned(replies).state.entries
      ensures error == Scanned(replies).error
    {
      entries := [];
      var known: seq<Option<string>> := [];
      ghost var xs := Receptions(replies);
      var i := 0;
      while i < |replies|
        invariant 0 <= i <= |replies|
        invariant Collected(xs, i) == ScanOutcome(ScanState(entries, known), None)
      {
        var x := HandleReply(replies, i);
        if x.verdict.Failure? {
          CollectedStopsAtError(xs, i + 1, |replies|);
          return Some(x.verdict.error);
        }
        if x.verdict.value.Accepted? {
          var identifier := Identifier(x.verdict.value.fields);
          if !(IsTruthy(identifier) && identifier in known) {
            known := known + [identifier];
            entries := entries + [Entry(x.verdict.value.fields, x.from)];
          }
        }
        i := i + 1;
      }
      return None;
    }

    /** `scan`: a scan is an `update`. */
    method Scan(replies: seq<Reply>) returns (error: Option<GdmError>)
      modifies this
      ensures entries == Scanned(replies).state.entries
      ensures error == Scanned(replies).error
    {
      error := Update(replies);
    }

    /** `all`: scan, then return a copy of the entries. */
    method All(replies: seq<Reply>) returns (r: Result<seq<Entry>, GdmError>)
      modifies this
      ensures entries == Scanned(replies).state.entries
      ensures r == if Scanned(replies).error.Some? then Failure(Scanned(replies).error.value) else Success(entries)
    {
      var error := Scan(replies);
      if error.Some? {
        return Failure(error.value);
      }
      r := Success(entries);
    }

    /** `find_by_content_type`: scan, then select the entries by content type. */
    method FindByContentType(replies: seq<Reply>, value: string) returns (r: Result<seq<Entry>, GdmError>)
      modifies this
      ensures entries == Scanned(replies).state.entries
      ensures r == if Scanned(replies).error.Some? then Failure(Scanned(replies).error.value)
                   else SelectByContentType(entries, value)
    {
      var error := Scan(replies);
      if error.Some? {
        return Failure(error.value);
      }
      r := SelectByContentType(entries, value);
    }

    /** `find_by_data`: scan, then select the entries that hold every item of `query`. */
    method FindByData(replies: seq<Reply>, query: Fields) returns (r: Result<seq<Entry>, GdmError>)
      modifies this
      ensures entries == Scanned(replies).state.entries
      ensures r == if Scanned(replies).error.Some? then Failure(Scanned(replies).error.value)
                   else Success(SelectByData(entries, query))
    {
      var error := Scan(replies);
      if error.Some? {
        return Failure(error.value);
      }
      r := Success(SelectByData(entries, query));
    }
  }
}
