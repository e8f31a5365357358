/** stream.go: the stream reader and its mid-stream recovery. */
module Streams {
  import opened Utf8
  import opened Ledger
  import opened Options

  datatype Delta = Delta(content: Text, role: string, toolCalls: nat)

  datatype Chunk = Chunk(choices: seq<Delta>)

  /** One scanned line, after parsing. */
  datatype Line = Blank | DoneMarker | Unparseable | NonContent | Data(chunk: Chunk)

  /** A response body: its lines, and whether the scan ends in an error rather than at end of file. */
  datatype Body = Body(lines: seq<Line>, broken: bool)

  datatype Mode = Off | Append | Retry | Other

  /** What one recovery attempt meets upstream. */
  datatype Attempt =
    | PickFailed
    | ProviderMissing
    | BuildFailed
    | AcquireFailed
    | SendFailed(target: Deployment)
    | Rejected(target: Deployment)
    | Opened(target: Deployment, body: Body)

  datatype Result = Got(chunk: Chunk) | Eof | Failed

  function Content(chunk: Chunk): Text {
    if chunk.choices == [] then [] else chunk.choices[0].content
  }

  // ---------------------------------------------------------------- replaying a text

  /** First-choice content of the lines up to the end marker. */
  ghost function Spoken(lines: seq<Line>): seq<Byte> {
    if lines == [] || lines[0].DoneMarker? then []
    else (if lines[0].Data? then Content(lines[0].chunk) else []) + Spoken(lines[1..])
  }

  /** After `consumed`, the rest of the body goes on with `text`; it reaches the end marker
      only with the text complete, and may break off anywhere before that. */
  ghost predicate Replays(consumed: seq<Byte>, lines: seq<Line>, text: seq<Byte>) {
    && consumed + Spoken(lines) <= text
    && (DoneMarker in lines ==> consumed + Spoken(lines) == text)
  }

  /** The runes consumed in this attempt plus those still to skip are the runes delivered. */
  ghost predicate Aligned(consumed: seq<Byte>, delivered: seq<Byte>, skip: nat) {
    && Valid(consumed) && Valid(delivered)
    && RuneCount(consumed) + skip == RuneCount(delivered)
    && (skip == 0 ==> consumed == delivered)
  }

  lemma ReplayStep(consumed: seq<Byte>, lines: seq<Line>, text: seq<Byte>)
    requires lines != [] && !lines[0].DoneMarker? && Replays(consumed, lines, text)
    ensures var c := if lines[0].Data? then Content(lines[0].chunk) else [];
      Replays(consumed + c, lines[1..], text) && consumed + c <= text
  {
    var c := if lines[0].Data? then Content(lines[0].chunk) else [];
    assert consumed + Spoken(lines) == (consumed + c) + Spoken(lines[1..]);
    assert DoneMarker in lines[1..] ==> DoneMarker in lines;
  }

  /** Skipping already delivered runes from a replayed piece keeps the two texts aligned. */
  lemma SkipAligns(consumed: seq<Byte>, delivered: seq<Byte>, skip: nat,
                   cut: seq<Byte>, rest: seq<Byte>, remaining: nat, text: seq<Byte>)
    requires skip > 0 && Aligned(consumed, delivered, skip)
    requires Valid(cut) && Valid(rest) && RuneCount(cut) + remaining == skip
    requires remaining > 0 ==> rest == []
    requires delivered <= text && consumed + (cut + rest) <= text
    ensures Aligned(consumed + (cut + rest), delivered + rest, remaining)
    ensures delivered + rest <= text
  {
    var passed := consumed + cut;
    assert consumed + (cut + rest) == passed + rest;
    assert passed <= text && Valid(passed) && RuneCount(passed) + remaining == RuneCount(delivered) by {
      ConcatValid(consumed, cut);
    }
    if remaining == 0 {
      assert passed == delivered by {
        PrefixByRunes(passed, delivered, text);
      }
      ConcatValid(passed, rest);
    } else {
      assert delivered + rest == delivered && passed + rest == passed;
    }
  }

  lemma NothingConsumed(delivered: seq<Byte>)
    requires Valid(delivered)
    ensures Aligned([], delivered, RuneCount(delivered))
  {
  }

  lemma DeliverAligns(consumed: seq<Byte>, delivered: seq<Byte>, skip: nat, c: seq<Byte>)
    requires Aligned(consumed, delivered, skip) && Valid(c)
    requires skip > 0 ==> c == []
    ensures Aligned(consumed + c, delivered + c, skip)
  {
    ConcatValid(consumed, c);
    ConcatValid(delivered, c);
    assert c == [] ==> consumed + c == consumed && delivered + c == delivered;
  }

  /** Reaching the end marker, nothing is left to skip and everything has been delivered. */
  lemma DoneMeansComplete(consumed: seq<Byte>, delivered: seq<Byte>, skip: nat, lines: seq<Line>, text: seq<Byte>)
    requires lines != [] && lines[0].DoneMarker? && Replays(consumed, lines, text)
    requires Aligned(consumed, delivered, skip) && delivered <= text
    ensures delivered == text
  {
    assert lines[0] in lines;
    assert consumed + Spoken(lines) == consumed;
    PrefixByRunes(delivered, consumed, text);
  }

  // ---------------------------------------------------------------- scanning a body

  /** What a scan comes to first: a chunk to deliver, with the lines after it and the runes still to skip, the end
      marker, or the end of the body. */
  datatype Scan = FindsChunk(chunk: Chunk, rest: seq<Line>, skip: nat) | FindsEnd | RunsOut

  /** With `skip` runes to skip, something of the chunk is left to deliver. */
  ghost predicate Kept(chunk: Chunk, skip: nat) {
    || skip == 0 || chunk.choices == []
    || RuneCount(chunk.choices[0].content) > skip
    || chunk.choices[0].role != "" || chunk.choices[0].toolCalls != 0
  }

  /** What is left of the chunk. */
  ghost function Trimmed(chunk: Chunk, skip: nat): Chunk {
    if skip == 0 || chunk.choices == [] then chunk
    else
      var delta := chunk.choices[0];
      WidthSplits(delta.content, skip);
      chunk.(choices := chunk.choices[0 := delta.(content := delta.content[Width(delta.content, skip)..])])
  }

  ghost function SkipAfter(chunk: Chunk, skip: nat): nat {
    if RuneCount(Content(chunk)) <= skip then skip - RuneCount(Content(chunk)) else 0
  }

  ghost function ScanOf(lines: seq<Line>, skip: nat): Scan {
    if lines == [] then RunsOut
    else
      match lines[0]
      case DoneMarker => FindsEnd
      case Data(chunk) =>
        if Kept(chunk, skip) then FindsChunk(Trimmed(chunk, skip), lines[1..], SkipAfter(chunk, skip))
        else ScanOf(lines[1..], SkipAfter(chunk, skip))
      case _ => ScanOf(lines[1..], skip)
  }

  // ---------------------------------------------------------------- the chunks of a body

  /** The chunks among the lines from `m` on, before `n`, as they came. */
  ghost function DataOf(body: seq<Line>, m: nat, n: nat): seq<Chunk>
    requires m <= n <= |body|
  {
    if m == n then []
    else if body[n - 1].Data? then DataOf(body, m, n - 1) + [body[n - 1].chunk]
    else DataOf(body, m, n - 1)
  }

  /** First-choice content of the chunks. */
  ghost function SaidBy(chunks: seq<Chunk>): seq<Byte> {
    if chunks == [] then [] else SaidBy(chunks[..|chunks| - 1]) + Content(chunks[|chunks| - 1])
  }

  /** How many of `skip` runes are still to be skipped after the first `n` lines. */
  ghost function LeftTo(body: seq<Line>, n: nat, skip: nat): nat
    requires n <= |body|
  {
    if n == 0 then skip
    else
      var left := LeftTo(body, n - 1, skip);
      if body[n - 1].Data? then SkipAfter(body[n - 1].chunk, left) else left
  }

  /** What comes of a chunk with `left` runes to skip. */
  ghost function Share(chunk: Chunk, left: nat): seq<Chunk> {
    if Kept(chunk, left) then [Trimmed(chunk, left)] else []
  }

  /** What reading the first `n` lines hands to the caller if the first `skip` runes are to be skipped. */
  ghost function HeardOf(body: seq<Line>, n: nat, skip: nat): seq<Chunk>
    requires n <= |body|
  {
    if n == 0 then []
    else if body[n - 1].Data? then HeardOf(body, n - 1, skip) + Share(body[n - 1].chunk, LeftTo(body, n - 1, skip))
    else HeardOf(body, n - 1, skip)
  }

  /** Once nothing is left to skip, every further chunk is handed on as it came, those without content too. */
  lemma {:induction false} HeardOnceCaughtUp(body: seq<Line>, m: nat, n: nat, skip: nat)
    requires m <= n <= |body| && LeftTo(body, m, skip) == 0
    ensures LeftTo(body, n, skip) == 0
    ensures HeardOf(body, n, skip) == HeardOf(body, m, skip) + DataOf(body, m, n)
  {
    if m < n {
      HeardOnceCaughtUp(body, m, n - 1, skip);
    }
  }

  lemma HeardAll(body: seq<Line>, n: nat)
    requires n <= |body|
    ensures HeardOf(body, n, 0) == DataOf(body, 0, n)
  {
    HeardOnceCaughtUp(body, 0, n, 0);
  }

  /** The chunks with a role, a tool call or no choice at all, without first-choice content. */
  ghost function Carriers(chunks: seq<Chunk>): seq<Chunk> {
    if chunks == [] then [] else Carriers(chunks[..|chunks| - 1]) + Carried(chunks[|chunks| - 1])
  }

  ghost function Carried(c: Chunk): seq<Chunk> {
    if c.choices == [] then [c]
    else if c.choices[0].role != "" || c.choices[0].toolCalls != 0
    then [Chunk([c.choices[0].(content := [])] + c.choices[1..])]
    else []
  }

  lemma CarriersSnoc(chunks: seq<Chunk>, c: Chunk)
    ensures Carriers(chunks + [c]) == Carriers(chunks) + Carried(c)
  {
    assert (chunks + [c])[..|chunks|] == chunks;
  }

  lemma ShareCarries(c: Chunk, left: nat)
    ensures Share(c, left) == [] ==> Carried(c) == []
    ensures Share(c, left) != [] ==> Carried(Share(c, left)[0]) == Carried(c)
  {
    if c.choices != [] && Kept(c, left) {
      assert Trimmed(c, left).choices[1..] == c.choices[1..];
    }
  }

  /** Skipping loses no chunk with a role or a tool call, and nothing of one but first-choice content. */
  lemma {:induction false} CarriersHeard(body: seq<Line>, n: nat, skip: nat)
    requires n <= |body|
    ensures Carriers(HeardOf(body, n, skip)) == Carriers(DataOf(body, 0, n))
  {
    if n > 0 {
      CarriersHeard(body, n - 1, skip);
      if body[n - 1].Data? {
        var left, c := LeftTo(body, n - 1, skip), body[n - 1].chunk;
        CarriersShare(HeardOf(body, n - 1, skip), DataOf(body, 0, n - 1), c, left);
      }
    }
  }

  lemma CarriersShare(heard: seq<Chunk>, data: seq<Chunk>, c: Chunk, left: nat)
    requires Carriers(heard) == Carriers(data)
    ensures Carriers(heard + Share(c, left)) == Carriers(data + [c])
  {
    ShareCarries(c, left);
    CarriersSnoc(data, c);
    if Share(c, left) == [] {
      assert heard + [] == heard;
    } else {
      CarriersSnoc(heard, Share(c, left)[0]);
    }
  }

  lemma SaidSnoc(chunks: seq<Chunk>, chunk: Chunk)
    ensures SaidBy(chunks + [chunk]) == SaidBy(chunks) + Content(chunk)
  {
    assert (chunks + [chunk])[..|chunks|] == chunks;
  }

  /** `whole` without its first `n` runes is `rest`; it has `left` fewer than that if `left` is not zero. */
  ghost predicate After(whole: seq<Byte>, n: nat, cut: seq<Byte>, rest: seq<Byte>, left: nat) {
    && whole == cut + rest && Valid(cut) && Valid(rest)
    && RuneCount(cut) + left == n && (left > 0 ==> rest == [])
  }

  ghost function CutOf(c: Chunk, left: nat): seq<Byte> {
    Content(c)[..Width(Content(c), left)]
  }

  /** What is left of a chunk is its content without the runes to skip. */
  lemma ShareSays(c: Chunk, left: nat)
    ensures var rest := if Share(c, left) == [] then [] else Content(Share(c, left)[0]);
      After(Content(c), left, CutOf(c, left), rest, SkipAfter(c, left))
  {
    CutAfter(Content(c), left);
    ShareRest(c, left);
  }

  lemma CutAfter(content: seq<Byte>, left: nat)
    requires Valid(content)
    ensures var i := Width(content, left);
      After(content, left, content[..i], content[i..],
            if RuneCount(content) <= left then left - RuneCount(content) else 0)
  {
    var i := Width(content, left);
    WidthSplits(content, left);
    WidthEnds(content, left);
    Split(content, i);
  }

  lemma Split(content: seq<Byte>, i: nat)
    requires i <= |content|
    ensures content == content[..i] + content[i..]
  {
  }

  lemma ShareRest(c: Chunk, left: nat)
    ensures var rest := if Share(c, left) == [] then [] else Content(Share(c, left)[0]);
      rest == Content(c)[Width(Content(c), left)..]
  {
    WidthEnds(Content(c), left);
  }

  lemma Regroup(a: seq<Byte>, b: seq<Byte>, c: seq<Byte>)
    ensures a + b + c == a + (b + c) && a + [] == a && [] + c == c
  {
  }

  lemma AfterAll(whole: seq<Byte>, n: nat, cut: seq<Byte>, rest: seq<Byte>, c: seq<Byte>, d: seq<Byte>,
                 more: seq<Byte>, later: nat)
    requires After(whole, n, cut, rest, 0) && After(c, 0, d, more, later)
    ensures After(whole + c, n, cut, rest + more, later)
  {
    assert d == [];
    Regroup([], d, more);
    Regroup(cut, rest, more);
    ConcatValid(rest, more);
  }

  lemma AfterSome(whole: seq<Byte>, n: nat, cut: seq<Byte>, left: nat, c: seq<Byte>, d: seq<Byte>, more: seq<Byte>,
                  later: nat)
    requires After(whole, n, cut, [], left) && After(c, left, d, more, later)
    ensures After(whole + c, n, cut + d, more, later)
  {
    Regroup(cut, d, more);
    Regroup(cut, [], []);
    ConcatValid(cut, d);
  }

  /** The content handed on is the content that came, without its first `skip` runes. */
  lemma {:induction false} SaidHeard(body: seq<Line>, n: nat, skip: nat) returns (cut: seq<Byte>)
    requires n <= |body|
    ensures After(SaidBy(DataOf(body, 0, n)), skip, cut, SaidBy(HeardOf(body, n, skip)), LeftTo(body, n, skip))
  {
    if n == 0 {
      return [];
    }
    cut := SaidHeard(body, n - 1, skip);
    if body[n - 1].Data? {
      var left := LeftTo(body, n - 1, skip);
      cut := SaidShare(DataOf(body, 0, n - 1), skip, cut, HeardOf(body, n - 1, skip), left, body[n - 1].chunk);
    }
  }

  lemma SaidShare(data: seq<Chunk>, skip: nat, cut: seq<Byte>, heard: seq<Chunk>, left: nat, c: Chunk)
    returns (longer: seq<Byte>)
    requires After(SaidBy(data), skip, cut, SaidBy(heard), left)
    ensures After(SaidBy(data + [c]), skip, longer, SaidBy(heard + Share(c, left)), SkipAfter(c, left))
  {
    var more := if Share(c, left) == [] then [] else Content(Share(c, left)[0]);
    ShareSays(c, left);
    SaidSnoc(data, c);
    SharedSaid(heard, c, left);
    if left == 0 {
      AfterAll(SaidBy(data), skip, cut, SaidBy(heard), Content(c), CutOf(c, left), more, SkipAfter(c, left));
      return cut;
    }
    AfterSome(SaidBy(data), skip, cut, left, Content(c), CutOf(c, left), more, SkipAfter(c, left));
    assert [] + more == more;
    return cut + CutOf(c, left);
  }

  lemma SharedSaid(heard: seq<Chunk>, c: Chunk, left: nat)
    ensures SaidBy(heard + Share(c, left)) ==
      SaidBy(heard) + if Share(c, left) == [] then [] else Content(Share(c, left)[0])
  {
    if Share(c, left) == [] {
      assert heard + [] == heard && SaidBy(heard) + [] == SaidBy(heard);
    } else {
      SaidSnoc(heard, Share(c, left)[0]);
    }
  }

  /** First-choice runes of the first `n` lines. */
  ghost function RunesOf(body: seq<Line>, n: nat): nat
    requires n <= |body|
  {
    RuneCount(SaidBy(DataOf(body, 0, n)))
  }

  lemma LeftIsRest(body: seq<Line>, n: nat, skip: nat)
    requires n <= |body|
    ensures LeftTo(body, n, skip) == if RunesOf(body, n) < skip then skip - RunesOf(body, n) else 0
  {
    var cut := SaidHeard(body, n, skip);
    ConcatValid(cut, SaidBy(HeardOf(body, n, skip)));
  }

  /** A chunk is passed over exactly if runes are still to be skipped before it and it has no more than those, no role
      and no tool call. */
  lemma PassedOverIff(body: seq<Line>, i: nat, skip: nat)
    requires i < |body| && body[i].Data?
    ensures HeardOf(body, i + 1, skip) == HeardOf(body, i, skip) <==>
      && RunesOf(body, i) < skip && RunesOf(body, i + 1) <= skip
      && var c := body[i].chunk;
         c.choices != [] && c.choices[0].role == "" && c.choices[0].toolCalls == 0
  {
    LeftIsRest(body, i, skip);
    SaidSnoc(DataOf(body, 0, i), body[i].chunk);
    SaidValid(DataOf(body, 0, i));
    ConcatValid(SaidBy(DataOf(body, 0, i)), Content(body[i].chunk));
    assert |HeardOf(body, i + 1, skip)| == |HeardOf(body, i, skip)| + |Share(body[i].chunk, LeftTo(body, i, skip))|;
  }

  lemma {:induction false} SaidValid(chunks: seq<Chunk>)
    ensures Valid(SaidBy(chunks))
  {
    if chunks != [] {
      SaidValid(chunks[..|chunks| - 1]);
      ConcatValid(SaidBy(chunks[..|chunks| - 1]), Content(chunks[|chunks| - 1]));
    }
  }

  /** Once as many runes as are to be skipped have passed, every further chunk is handed on as it came. */
  lemma CaughtUpHandsAll(body: seq<Line>, m: nat, n: nat, skip: nat)
    requires m <= n <= |body| && RunesOf(body, m) >= skip
    ensures HeardOf(body, n, skip) == HeardOf(body, m, skip) + DataOf(body, m, n)
  {
    LeftIsRest(body, m, skip);
    HeardOnceCaughtUp(body, m, n, skip);
  }

  /** `g` is `d`, but for content of the first choice. */
  ghost predicate SameBut(g: Chunk, d: Chunk) {
    if d.choices == [] then g == d
    else
      && |g.choices| == |d.choices| && g.choices[1..] == d.choices[1..]
      && g.choices[0] == d.choices[0].(content := g.choices[0].content)
  }

  /** Every chunk of `given` is one of `data` but for first-choice content, in the same order. */
  ghost predicate InOrder(given: seq<Chunk>, data: seq<Chunk>) {
    if given == [] then true
    else if data == [] then false
    else
      var m, n := |given| - 1, |data| - 1;
      InOrder(given, data[..n]) || (InOrder(given[..m], data[..n]) && SameBut(given[m], data[n]))
  }

  lemma InOrderSnoc(given: seq<Chunk>, data: seq<Chunk>, share: seq<Chunk>, d: Chunk)
    requires InOrder(given, data) && |share| <= 1 && (share != [] ==> SameBut(share[0], d))
    ensures InOrder(given + share, data + [d])
  {
    assert (data + [d])[..|data|] == data;
    if share == [] {
      assert given + share == given;
    } else {
      assert (given + share)[..|given|] == given;
    }
  }

  lemma {:induction false} HeardInOrder(body: seq<Line>, n: nat, skip: nat)
    requires n <= |body|
    ensures InOrder(HeardOf(body, n, skip), DataOf(body, 0, n))
  {
    if n > 0 {
      HeardInOrder(body, n - 1, skip);
      if body[n - 1].Data? {
        var c, left := body[n - 1].chunk, LeftTo(body, n - 1, skip);
        ShareSame(c, left);
        InOrderSnoc(HeardOf(body, n - 1, skip), DataOf(body, 0, n - 1), Share(c, left), c);
      }
    }
  }

  lemma ShareSame(c: Chunk, left: nat)
    ensures Share(c, left) != [] ==> SameBut(Share(c, left)[0], c)
  {
    if Kept(c, left) && c.choices != [] {
      assert Trimmed(c, left).choices[1..] == c.choices[1..];
    }
  }

  // ---------------------------------------------------------------- the bodies of a run

  /** One body as far as it was read: the recovery that brought it, 0 for the body the reader began with, its lines, how
      many were read, the runes to skip from its start, and the chunks handed to the caller. */
  datatype Episode = Episode(attempt: nat, body: seq<Line>, read: nat, skip: nat, given: seq<Chunk>)

  /** The bodies that brought chunks before, and the one being read. */
  datatype Tale = Tale(past: seq<Episode>, now: Episode)

  ghost predicate Unmarked(body: seq<Line>, n: nat) {
    n <= |body| && forall i :: 0 <= i < n ==> !body[i].DoneMarker?
  }

  ghost predicate Heard(e: Episode) {
    Unmarked(e.body, e.read) && e.given == HeardOf(e.body, e.read, e.skip)
  }

  /** Read up to the end marker, or to the end. */
  ghost predicate ReadThrough(e: Episode) {
    e.read == |e.body| || (e.read < |e.body| && e.body[e.read].DoneMarker?)
  }

  ghost function Handed(past: seq<Episode>): seq<Chunk> {
    if past == [] then [] else Handed(past[..|past| - 1]) + past[|past| - 1].given
  }

  ghost function AllHanded(tale: Tale): seq<Chunk> {
    Handed(tale.past) + tale.now.given
  }

  lemma HandedSnoc(past: seq<Episode>, e: Episode)
    ensures Handed(past + [e]) == Handed(past) + e.given
  {
    assert (past + [e])[..|past|] == past;
  }

  /** With nothing to skip, the chunks of the lines read, as they came. In any case those chunks in order, but for
      first-choice content, none missing that has a role or a tool call, and the content without the runes to skip. */
  ghost predicate Lawful(e: Episode) {
    && e.read <= |e.body|
    && (e.skip == 0 ==> e.given == DataOf(e.body, 0, e.read))
    && InOrder(e.given, DataOf(e.body, 0, e.read))
    && Carriers(e.given) == Carriers(DataOf(e.body, 0, e.read))
    && exists cut, left :: After(SaidBy(DataOf(e.body, 0, e.read)), e.skip, cut, SaidBy(e.given), left)
  }

  lemma HeardIsLawful(e: Episode)
    requires Heard(e)
    ensures Lawful(e)
  {
    if e.skip == 0 {
      HeardAll(e.body, e.read);
    }
    HeardInOrder(e.body, e.read, e.skip);
    CarriersHeard(e.body, e.read, e.skip);
    var cut := SaidHeard(e.body, e.read, e.skip);
  }

  /** A scan that finds a chunk reads on to just behind it. */
  lemma {:induction false} ScanFinds(body: seq<Line>, n: nat, skip: nat) returns (m: nat)
    requires Unmarked(body, n) && ScanOf(body[n..], LeftTo(body, n, skip)).FindsChunk?
    ensures var scan := ScanOf(body[n..], LeftTo(body, n, skip));
      && Unmarked(body, m) && scan.rest == body[m..] && scan.skip == LeftTo(body, m, skip)
      && HeardOf(body, m, skip) == HeardOf(body, n, skip) + [scan.chunk]
    decreases |body| - n
  {
    assert body[n..][1..] == body[n + 1..];
    if body[n].Data? && Kept(body[n].chunk, LeftTo(body, n, skip)) {
      return n + 1;
    }
    m := ScanFinds(body, n + 1, skip);
  }

  /** A scan that finds none reads on to the end marker or the end. */
  lemma {:induction false} ScanEnds(body: seq<Line>, n: nat, skip: nat) returns (m: nat)
    requires Unmarked(body, n) && !ScanOf(body[n..], LeftTo(body, n, skip)).FindsChunk?
    ensures Unmarked(body, m) && (m == |body| || body[m].DoneMarker?)
    ensures HeardOf(body, m, skip) == HeardOf(body, n, skip)
    decreases |body| - n
  {
    if n == |body| || body[n].DoneMarker? {
      return n;
    }
    assert body[n..][1..] == body[n + 1..];
    m := ScanEnds(body, n + 1, skip);
  }

  /** A body that brings no chunk has none with a role or a tool call. */
  lemma SilentBody(body: seq<Line>, skip: nat) returns (e: Episode)
    requires !ScanOf(body, skip).FindsChunk?
    ensures e.body == body && e.skip == skip && e.given == [] && ReadThrough(e) && Lawful(e)
  {
    assert body[0..] == body;
    var m := ScanEnds(body, 0, skip);
    e := Episode(0, body, m, skip, []);
    HeardIsLawful(e);
  }

  /** Where a reader stands: the lines ahead, the runes to skip, what was delivered, the recoveries so far. */
  datatype Cursor = Cursor(lines: seq<Line>, skip: nat, got: seq<Byte>, recoveries: nat, closed: bool)

  /** What a recovery sends along: in append mode a part of the text that was delivered, else nothing. */
  ghost predicate Resends(mode: Mode, text: seq<Byte>, sent: seq<Byte>) {
    Valid(sent) && if mode == Append then sent <= text else sent == []
  }

  /** Retry mode resends the request and every body replays the text from the start; append mode
      sends what was delivered, uncut, and every body goes on from there. */
  ghost predicate EveryRecoveryReplays(mode: Mode, maxBytes: int, upstream: (nat, seq<Byte>) -> Attempt,
                                       text: seq<Byte>)
  {
    && (mode == Append ==> maxBytes <= 0 || |text| <= maxBytes)
    && forall k, sent :: Resends(mode, text, sent) && upstream(k, sent).Opened? ==>
         Replays(sent, upstream(k, sent).body.lines, text)
  }

  // ---------------------------------------------------------------- the reader

  class StreamReader {
    // configuration and environment
    const mode: Mode
    const maxRetries: int
    const maxBytes: int
    const waits: bool                // a back-off longer than zero precedes each recovery
    const upstream: (nat, seq<Byte>) -> Attempt  // what recovery k meets, given the assistant text it sends
    const cancelAt: Option<nat>      // how many context checks pass before it is cancelled
    ghost const text: seq<Byte>      // the text every attempt replays, if they do
    ghost const exact: bool
    ghost const begunBefore: nat
    ghost const first: seq<Line>     // the body the reader begins with

    // the current scanner and deployment
    var lines: seq<Line>
    var broken: bool
    var deployment: Deployment

    var closed: bool
    var requestEnded: bool
    var release: bool                // a release function is held
    var pluginCtx: bool              // the plugin context is held
    var postHooksRun: bool
    var seenDone: bool
    var skipRemaining: nat
    var retryCount: nat
    var accumulated: seq<Byte>
    var accumulatedRunes: nat
    var checks: nat                  // context checks so far

    ghost var log: seq<Event>
    ghost var delivered: seq<Byte>   // first-choice content handed to the caller
    ghost var consumed: seq<Byte>    // first-choice content scanned in this attempt

    ghost predicate RecoveriesReplay() {
      EveryRecoveryReplays(mode, maxBytes, upstream, text)
    }

    ghost function RetriesLeft(): nat
      reads this
    {
      if retryCount < maxRetries then maxRetries - retryCount else 0
    }

    predicate Cancelled()
      reads this`checks
    {
      cancelAt.Some? && checks >= cancelAt.value
    }

    /** Recovery is over for good. */
    predicate GaveUp()
      reads this
    {
      mode == Off || retryCount >= maxRetries || Cancelled()
    }

    ghost predicate Accounts()
      reads this`log, this`deployment, this`closed, this`requestEnded, this`release
      reads this`pluginCtx, this`postHooksRun, this`retryCount
    {
      && Open(Request, log) == (if requestEnded then Idle else Busy(deployment))
      && Open(Permit, log) == (if requestEnded then Idle else Busy(deployment))
      && release == !requestEnded
      && Puts(log) == (if postHooksRun then 1 else 0)
      && pluginCtx == !postHooksRun
      && (closed ==> requestEnded && postHooksRun)
      && Begun(Request, log) <= begunBefore + retryCount
      && (retryCount > 0 ==> retryCount <= maxRetries)
    }

    ghost predicate Texts()
      reads this`delivered, this`accumulated, this`accumulatedRunes, this`skipRemaining, this`seenDone
    {
      && Banked()
      && (exact ==>
            && (skipRemaining > 0 ==> mode == Retry)
            && delivered <= text && (seenDone ==> delivered == text))
    }

    ghost predicate Promise() {
      exact ==> mode != Other && RecoveriesReplay()
    }

    ghost predicate Inv()
      reads this
    {
      Accounts() && Texts()
    }

    /** The scanner stands where `consumed` and `skipRemaining` say. */
    ghost predicate InStep()
      reads this`delivered, this`consumed, this`lines, this`skipRemaining
    {
      exact ==> Replays(consumed, lines, text) && Aligned(consumed, delivered, skipRemaining)
    }

    ghost predicate Ready()
      reads this
    {
      Promise() && Inv() && (!closed ==> InStep())
    }

    // -------------------------------------------------------------- what the next Recv finds

    ghost function Skip(): nat
      reads this`skipRemaining
    {
      if mode == Retry then skipRemaining else 0
    }

    ghost function Ahead(): Scan
      reads this`lines, this`skipRemaining
    {
      ScanOf(lines, Skip())
    }

    /** The stream ends here: at the end marker, or with the body once a marker has been seen. */
    ghost predicate EndsHere()
      reads this`lines, this`skipRemaining, this`broken, this`seenDone
    {
      Ahead() == FindsEnd || (Ahead() == RunsOut && !broken && seenDone)
    }

    /** What recovery `k` meets if `got` has been delivered. */
    ghost function Meets(k: nat, got: seq<Byte>): Attempt {
      upstream(k, if mode == Append then CappedSuffix(got, maxBytes) else [])
    }

    ghost function SkipFor(got: seq<Byte>): nat {
      if mode == Retry then RuneCount(got) else 0
    }

    /** What the scan of the body that recovery `k` meets comes to first. */
    ghost function Shown(k: nat, got: seq<Byte>): Scan
      requires Meets(k, got).Opened?
    {
      ScanOf(Meets(k, got).body.lines, SkipFor(got))
    }

    /** Recovery `k` brings a chunk to deliver. */
    ghost predicate Yields(k: nat, got: seq<Byte>) {
      Meets(k, got).Opened? && Shown(k, got).FindsChunk?
    }

    ghost predicate SomeYields(after: nat, upTo: int, got: seq<Byte>) {
      exists k: nat :: after < k <= upTo && Yields(k, got)
    }

    lemma YieldsSplit(a: nat, b: nat, c: int, got: seq<Byte>)
      requires a <= b <= c
      ensures SomeYields(a, c, got) <==> SomeYields(a, b, got) || SomeYields(b, c, got)
    {
    }

    /** From retry count `before` with `got` delivered: a chunk came from the scan at hand (`found`) or from a recovery
        that brings one; without a chunk there was none, unless the context was cancelled. */
    ghost predicate Told(chunk: bool, found: bool, before: nat, got: seq<Byte>)
      reads this`retryCount, this`checks
    {
      && (found ==> chunk)
      && (chunk ==> found || SomeYields(before, retryCount, got))
      && (!chunk && !Cancelled() ==> !SomeYields(before, retryCount, got))
    }

    ghost predicate Recovered(chunk: Chunk, before: nat, got: seq<Byte>)
      reads this`retryCount, this`lines, this`skipRemaining
    {
      RecoveredBy(retryCount, chunk, before, got, lines, Skip())
    }

    /** The chunk is the first that the body of recovery `k` shows, and no recovery between brought one. */
    ghost predicate RecoveredBy(k: nat, chunk: Chunk, before: nat, got: seq<Byte>, rest: seq<Line>, skip: nat) {
      && before < k && Yields(k, got) && !SomeYields(before, k - 1, got)
      && Shown(k, got) == FindsChunk(chunk, rest, skip)
    }

    // -------------------------------------------------------------- the bodies it reads

    /** After the bodies `past`, `e` is the next that brings a chunk, and in retry mode all runes handed on are to be
        skipped in it. */
    ghost predicate Begins(e: Episode, past: seq<Episode>) {
      var got := SaidBy(Handed(past));
      && e.skip == SkipFor(got)
      && if past == [] then e.attempt == 0 && e.body == first
         else
           var before := past[|past| - 1].attempt;
           && before < e.attempt && !SomeYields(before, e.attempt - 1, got) && Meets(e.attempt, got).Opened?
           && e.body == Meets(e.attempt, got).body.lines
    }

    ghost predicate Chain(past: seq<Episode>) {
      past == [] ||
      var n := |past| - 1;
      Chain(past[..n]) && Begins(past[n], past[..n]) && Heard(past[n]) && ReadThrough(past[n])
    }

    lemma ChainSnoc(past: seq<Episode>, e: Episode)
      requires Chain(past) && Begins(e, past) && Heard(e) && ReadThrough(e)
      ensures Chain(past + [e])
    {
      assert (past + [e])[..|past|] == past;
    }

    lemma {:induction false} ChainLawful(past: seq<Episode>, e: Episode)
      requires Chain(past) && e in past
      ensures Lawful(e) && ReadThrough(e) && (mode != Retry ==> e.skip == 0)
    {
      var n := |past| - 1;
      if e == past[n] {
        HeardIsLawful(e);
      } else {
        ChainLawful(past[..n], e);
      }
    }

    /** The tale of everything handed on, up to where the reader stands. */
    ghost predicate Knows(tale: Tale, c: Cursor) {
      && Chain(tale.past) && Begins(tale.now, tale.past) && Heard(tale.now) && c.got == SaidBy(AllHanded(tale))
      && (!c.closed ==>
            && tale.now.attempt == c.recoveries && c.lines == tale.now.body[tale.now.read..]
            && c.skip == LeftTo(tale.now.body, tale.now.read, tale.now.skip))
    }

    ghost function Here(): Cursor
      reads this`lines, this`skipRemaining, this`delivered, this`retryCount, this`closed
    {
      Cursor(lines, Skip(), delivered, retryCount, closed)
    }

    /** What a call answers and where it leads. */
    ghost predicate Leads(before: Cursor, reply: Reply, after: Cursor) {
      && after.got == before.got + Part(reply) && (before.closed || !IsChunk(reply) ==> after.closed)
      && (IsChunk(reply) ==>
            !before.closed && !after.closed && Finds(before, reply.result.chunk, after))
      && (reply.Returned? && !IsChunk(reply) && !before.closed ==> !ScanOf(before.lines, before.skip).FindsChunk?)
    }

    ghost predicate Finds(before: Cursor, chunk: Chunk, after: Cursor) {
      var scan := ScanOf(before.lines, before.skip);
      if scan.FindsChunk?
      then scan == FindsChunk(chunk, after.lines, after.skip) && after.recoveries == before.recoveries
      else RecoveredBy(after.recoveries, chunk, before.recoveries, before.got, after.lines, after.skip)
    }

    /** The body at hand is read on to the next chunk. */
    lemma ReadOn(tale: Tale, before: Cursor, chunk: Chunk, after: Cursor) returns (next: Tale)
      requires Knows(tale, before) && !before.closed && !after.closed
      requires ScanOf(before.lines, before.skip) == FindsChunk(chunk, after.lines, after.skip)
      requires after.recoveries == before.recoveries && after.got == before.got + Content(chunk)
      ensures Knows(next, after) && AllHanded(next) == AllHanded(tale) + [chunk]
    {
      var e := tale.now;
      var m := ScanFinds(e.body, e.read, e.skip);
      next := tale.(now := e.(read := m, given := e.given + [chunk]));
      assert AllHanded(next) == AllHanded(tale) + [chunk];
      SaidSnoc(AllHanded(tale), chunk);
    }

    /** The body at hand is read through without another chunk. */
    lemma ReadOut(tale: Tale, before: Cursor) returns (next: Tale)
      requires Knows(tale, before) && !before.closed && !ScanOf(before.lines, before.skip).FindsChunk?
      ensures Chain(next.past) && Begins(next.now, next.past) && Heard(next.now) && ReadThrough(next.now)
      ensures next == tale.(now := tale.now.(read := next.now.read))
    {
      var e := tale.now;
      var m := ScanEnds(e.body, e.read, e.skip);
      next := tale.(now := e.(read := m));
    }

    /** A new body is read to its first chunk. */
    lemma ReadNew(tale: Tale, before: Cursor, chunk: Chunk, after: Cursor) returns (next: Tale)
      requires Knows(tale, before) && !before.closed && !after.closed
      requires !ScanOf(before.lines, before.skip).FindsChunk?
      requires RecoveredBy(after.recoveries, chunk, before.recoveries, before.got, after.lines, after.skip)
      requires after.got == before.got + Content(chunk)
      ensures Knows(next, after) && AllHanded(next) == AllHanded(tale) + [chunk]
    {
      var out := ReadOut(tale, before);
      ChainSnoc(out.past, out.now);
      HandedSnoc(out.past, out.now);
      var body := Meets(after.recoveries, before.got).body.lines;
      var start := Tale(out.past + [out.now], Episode(after.recoveries, body, 0, SkipFor(before.got), []));
      assert AllHanded(start) == AllHanded(tale) && body[0..] == body;
      next := ReadOn(start, Cursor(body, SkipFor(before.got), before.got, after.recoveries, false), chunk, after);
    }

    /** The tale goes on with every call. */
    lemma TaleGoesOn(tale: Tale, before: Cursor, reply: Reply, after: Cursor) returns (next: Tale)
      requires Knows(tale, before) && Leads(before, reply, after)
      ensures Knows(next, after) && AllHanded(next) == AllHanded(tale) + Brought(reply)
      ensures before.closed ==> next == tale
      ensures !before.closed && reply.Returned? && !IsChunk(reply) ==> ReadThrough(next.now)
    {
      assert AllHanded(tale) + [] == AllHanded(tale);
      if IsChunk(reply) {
        if ScanOf(before.lines, before.skip).FindsChunk? {
          next := ReadOn(tale, before, reply.result.chunk, after);
        } else {
          next := ReadNew(tale, before, reply.result.chunk, after);
        }
      } else if reply.Returned? && !before.closed {
        next := ReadOut(tale, before);
      } else {
        next := tale;
      }
    }

    /** The next Recv returns a chunk, if the context is not cancelled: the scan at hand finds one, or the stream does
        not end here and one of the recoveries left brings one. */
    ghost predicate BringsChunk()
      reads this
    {
      || Ahead().FindsChunk?
      || (!EndsHere() && mode != Off && SomeYields(retryCount, maxRetries, delivered))
    }

    /** The scanner stands at the first line of what recovery `retryCount` met. */
    ghost predicate AtStart()
      reads this`lines, this`skipRemaining, this`retryCount, this`delivered
    {
      && Meets(retryCount, delivered).Opened? && lines == Meets(retryCount, delivered).body.lines
      && Skip() == SkipFor(delivered)
    }

    constructor (mode: Mode, maxRetries: int, maxBytes: int, waits: bool, upstream: (nat, seq<Byte>) -> Attempt,
                 cancelAt: Option<nat>, body: Body, deployment: Deployment,
                 ghost log: seq<Event>, ghost text: seq<Byte>)
      requires Open(Request, log) == Busy(deployment) && Open(Permit, log) == Busy(deployment)
      requires Puts(log) == 0
      ensures Ready() && !closed && !requestEnded && this.deployment == deployment
      ensures delivered == [] && retryCount == 0 && this.log == log && !seenDone
      ensures this.mode == mode && this.maxRetries == maxRetries && this.upstream == upstream && this.text == text
      ensures this.maxBytes == maxBytes && begunBefore == Begun(Request, log)
      ensures exact == (mode != Other && Replays([], body.lines, text) && RecoveriesReplay())
      ensures lines == first == body.lines && broken == body.broken && skipRemaining == 0 && this.cancelAt == cancelAt
    {
      this.mode, this.maxRetries, this.maxBytes, this.waits := mode, maxRetries, maxBytes, waits;
      this.upstream, this.cancelAt, this.text := upstream, cancelAt, text;
      this.lines, this.broken, this.deployment := body.lines, body.broken, deployment;
      closed, requestEnded, release, pluginCtx, postHooksRun, seenDone := false, false, true, true, false, false;
      skipRemaining, retryCount, accumulated, accumulatedRunes, checks := 0, 0, [], 0, 0;
      this.log, delivered, consumed, first := log, [], [], body.lines;
      begunBefore := Begun(Request, log);
      exact := mode != Other && Replays([], body.lines, text) && EveryRecoveryReplays(mode, maxBytes, upstream, text);
    }

    // -------------------------------------------------------------- small steps

    method ContextErr() returns (cancelled: bool)
      modifies this`checks
      ensures cancelled == old(Cancelled()) && (cancelled ==> Cancelled())
    {
      cancelled := Cancelled();
      checks := checks + 1;
    }

    /** The buffer and the rune count stand for everything delivered. */
    ghost predicate Banked()
      reads this`delivered, this`accumulated, this`accumulatedRunes
    {
      && Valid(delivered)
      && accumulated == CappedSuffix(delivered, maxBytes)
      && accumulatedRunes == RuneCount(delivered)
    }

    /** Any bytes are appended and counted, and over the cap the longest valid suffix that fits is kept; with valid text
        the buffer goes on standing for everything delivered. */
    method AppendAccumulated(content: seq<Byte>)
      modifies this`accumulated, this`accumulatedRunes, this`delivered
      ensures delivered == old(delivered) + content
      ensures accumulatedRunes == old(accumulatedRunes) + RuneCount(content)
      ensures var whole := old(accumulated) + content;
        if content == [] || maxBytes <= 0 || |whole| <= maxBytes then accumulated == whole
        else LongestValid(whole, maxBytes, accumulated)
      ensures Valid(content) && old(Banked()) ==> Banked()
    {
      ghost var before := delivered;
      delivered := delivered + content;
      if content == [] {
        assert delivered == before && accumulated + [] == accumulated;
        return;
      }
      accumulatedRunes := accumulatedRunes + RuneCount(content);
      ghost var whole := accumulated + content;
      accumulated := accumulated + content;
      if maxBytes > 0 && |accumulated| > maxBytes {
        accumulated := CutToCap(accumulated, maxBytes);
      }
      if Valid(content) && old(Banked()) {
        AppendKeepsInvariant(before, content, maxBytes);
      }
    }

    ghost method Note(e: Event)
      modifies this`log
      ensures Open(Request, log) == Entry(Request, old(Open(Request, log)), e)
      ensures Open(Permit, log) == Entry(Permit, old(Open(Permit, log)), e)
      ensures Puts(log) == old(Puts(log)) + if e == PutContext then 1 else 0
      ensures Begun(Request, log) == old(Begun(Request, log)) + if e.Begin? && e.kind == Request then 1 else 0
    {
      Noted(log, e);
      log := log + [e];
    }

    /** A permit and a request begin or end together. */
    ghost method NoteBoth(begin: bool, target: Deployment)
      requires Open(Request, log) == Open(Permit, log) == if begin then Idle else Busy(target)
      modifies this`log
      ensures Open(Request, log) == Open(Permit, log) == if begin then Busy(target) else Idle
      ensures Puts(log) == old(Puts(log))
      ensures Begun(Request, log) == old(Begun(Request, log)) + if begin then 1 else 0
    {
      Note(if begin then Begin(Permit, target) else End(Permit, target));
      Note(if begin then Begin(Request, target) else End(Request, target));
    }

    method EndRequest()
      requires Accounts()
      modifies this`requestEnded, this`release, this`log
      ensures Accounts() && requestEnded
    {
      if requestEnded {
        return;
      }
      Note(End(Request, deployment));
      if release {
        Note(End(Permit, deployment));
        release := false;
      }
      requestEnded := true;
    }

    method FinalizeStream()
      requires Accounts()
      modifies this`postHooksRun, this`pluginCtx, this`log
      ensures Accounts() && postHooksRun
    {
      if postHooksRun {
        return;
      }
      postHooksRun := true;
      if !pluginCtx {
        return;
      }
      Note(PutContext);
      pluginCtx := false;
    }

    method CloseLocked()
      requires Accounts() && postHooksRun
      modifies this`closed, this`requestEnded, this`release, this`log
      ensures Accounts() && closed
    {
      if closed {
        return;
      }
      EndRequest();
      closed := true;
    }

    method Finish()
      requires Accounts()
      modifies this`closed, this`requestEnded, this`release, this`log, this`postHooksRun, this`pluginCtx
      ensures Accounts() && closed
    {
      FinalizeStream();
      CloseLocked();
    }

    method CanRecover() returns (can: bool)
      modifies this`checks
      ensures can ==> mode != Off && retryCount < maxRetries && !old(Cancelled())
      ensures !can ==> GaveUp()
      ensures (old(GaveUp()) ==> GaveUp()) && (old(Cancelled()) ==> Cancelled())
    {
      if mode == Off {
        return false;
      }
      if retryCount >= maxRetries {
        return false;
      }
      var cancelled := ContextErr();
      return !cancelled;
    }

    method Close()
      requires Ready()
      modifies this
      ensures Ready() && closed && delivered == old(delivered) && seenDone == old(seenDone)
    {
      Finish();
    }

    // -------------------------------------------------------------- Recv and recovery

    /** The next chunk, the end of the stream, or the error that ended it. */
    method Recv() returns (r: Result)
      requires Ready()
      modifies this
      ensures Ready() && retryCount >= old(retryCount)
      ensures r.Got? ==> !closed && delivered == old(delivered) + Content(r.chunk)
      ensures !r.Got? ==> closed && delivered == old(delivered)
      ensures r.Eof? <==> old(closed || EndsHere())
      ensures r.Eof? && !old(closed) ==> seenDone
      ensures r.Failed? ==> GaveUp()
      ensures !old(closed) && old(Ahead()).FindsChunk? ==>
        && r.Got? && old(Ahead()) == FindsChunk(r.chunk, lines, Skip())
        && broken == old(broken) && retryCount == old(retryCount)
      ensures !old(closed) ==> Told(r.Got?, old(Ahead()).FindsChunk?, old(retryCount), old(delivered))
      ensures r.Got? && !old(Ahead()).FindsChunk? ==> Recovered(r.chunk, old(retryCount), old(delivered))
      ensures !old(closed) && cancelAt.None? ==> (r.Got? <==> old(BringsChunk()))
      decreases RetriesLeft(), 5
    {
      if closed {
        return Eof;
      }
      r := RecvOpen();
    }

    method RecvOpen() returns (r: Result)
      requires Ready() && !closed
      modifies this
      ensures Ready() && retryCount >= old(retryCount)
      ensures r.Got? ==> !closed && delivered == old(delivered) + Content(r.chunk)
      ensures !r.Got? ==> closed && delivered == old(delivered)
      ensures r.Eof? <==> old(EndsHere())
      ensures r.Eof? ==> seenDone
      ensures r.Failed? ==> GaveUp()
      ensures old(Ahead()).FindsChunk? ==>
        && r.Got? && old(Ahead()) == FindsChunk(r.chunk, lines, Skip())
        && broken == old(broken) && retryCount == old(retryCount)
      ensures Told(r.Got?, old(Ahead()).FindsChunk?, old(retryCount), old(delivered))
      ensures r.Got? && !old(Ahead()).FindsChunk? ==> Recovered(r.chunk, old(retryCount), old(delivered))
      ensures cancelAt.None? ==> (r.Got? <==> old(BringsChunk()))
      decreases RetriesLeft(), 4
    {
      var found, atEnd := ScanBody();
      match found {
        case Some(chunk) =>
          return Got(chunk);
        case None =>
          r := EndOrRecover(atEnd);
      }
    }

    /** After a scan without a chunk: the end of the stream, or recovery. */
    method EndOrRecover(atEnd: bool) returns (r: Result)
      requires Promise() && Inv() && !closed && (atEnd ==> seenDone)
      modifies this
      ensures Ready() && retryCount >= old(retryCount)
      ensures r.Got? ==> !closed && delivered == old(delivered) + Content(r.chunk)
      ensures !r.Got? ==> closed && delivered == old(delivered)
      ensures r.Eof? <==> atEnd || old(!broken && seenDone)
      ensures r.Eof? ==> seenDone
      ensures r.Failed? ==> GaveUp()
      ensures Told(r.Got?, false, old(retryCount), old(delivered))
      ensures r.Got? ==> Recovered(r.chunk, old(retryCount), old(delivered))
      ensures cancelAt.None? ==> (r.Got? <==>
        !atEnd && old(broken || !seenDone) && mode != Off && SomeYields(old(retryCount), maxRetries, old(delivered)))
      decreases RetriesLeft(), 3
    {
      if !atEnd && (broken || !seenDone) {
        r := RecoverOrFail();
        return;
      }
      Finish();
      return Eof;
    }

    /** Scans for the next chunk; `atEnd` says that the end marker came first. */
    method ScanBody() returns (found: Option<Chunk>, atEnd: bool)
      requires Texts() && InStep()
      modifies this`lines, this`skipRemaining, this`accumulated, this`accumulatedRunes, this`delivered
      modifies this`consumed, this`seenDone
      ensures Texts() && (atEnd ==> found.None? && seenDone)
      ensures found.Some? ==> InStep() && delivered == old(delivered) + Content(found.value)
      ensures found.None? ==> delivered == old(delivered)
      ensures found.Some? <==> old(Ahead()).FindsChunk?
      ensures found.Some? ==> old(Ahead()) == FindsChunk(found.value, lines, Skip())
      ensures atEnd <==> old(Ahead()) == FindsEnd
      ensures !atEnd ==> seenDone == old(seenDone)
    {
      while lines != []
        invariant Texts() && InStep() && delivered == old(delivered)
        invariant Ahead() == old(Ahead()) && seenDone == old(seenDone)
        decreases |lines|
      {
        if lines[0].DoneMarker? {
          ReachEnd();
          return None, true;
        }
        if !lines[0].Data? {
          SkipLine();
          continue;
        }
        var keep, chunk := TakeChunk();
        if keep {
          return Some(chunk), false;
        }
      }
      return None, false;
    }

    /** Takes the end marker. */
    method ReachEnd()
      requires Texts() && InStep() && lines != [] && lines[0].DoneMarker?
      modifies this`lines, this`seenDone
      ensures Texts() && seenDone
    {
      if exact {
        DoneMeansComplete(consumed, delivered, skipRemaining, lines, text);
      }
      lines := lines[1..];
      seenDone := true;
    }

    /** Moves past a line that carries no chunk. */
    method SkipLine()
      requires InStep() && lines != [] && !lines[0].DoneMarker? && !lines[0].Data?
      modifies this`lines
      ensures lines == old(lines)[1..] && InStep()
    {
      if exact {
        ReplayStep(consumed, lines, text);
        assert consumed + [] == consumed;
      }
      lines := lines[1..];
    }

    /** In retry mode, drops from the chunk what earlier attempts delivered already. */
    method SkipDelivered(chunk: Chunk) returns (out: Chunk, drop: bool)
      requires exact ==>
        && Aligned(consumed, delivered, skipRemaining) && (skipRemaining > 0 ==> mode == Retry)
        && delivered <= text && consumed + Content(chunk) <= text
      modifies this`skipRemaining
      ensures exact ==>
        && Aligned(consumed + Content(chunk), delivered + Content(out), skipRemaining)
        && (skipRemaining > 0 ==> mode == Retry)
        && delivered + Content(out) <= text
      ensures drop ==> Content(out) == []
      ensures drop <==> !Kept(chunk, old(Skip()))
      ensures out == Trimmed(chunk, old(Skip())) && Skip() == SkipAfter(chunk, old(Skip()))
    {
      out := chunk;
      if mode == Retry && skipRemaining > 0 && |chunk.choices| > 0 {
        var delta := chunk.choices[0];
        if delta.content != [] {
          var rest := SkipRunes(delta.content);
          delta := delta.(content := rest);
          out := chunk.(choices := chunk.choices[0 := delta]);
        } else if exact {
          DeliverAligns(consumed, delivered, skipRemaining, []);
        }
        return out, delta.content == [] && delta.role == [] && delta.toolCalls == 0;
      }
      if exact {
        DeliverAligns(consumed, delivered, skipRemaining, Content(chunk));
      }
      return out, false;
    }

    /** Takes from a replayed piece the runes that are still to be skipped. */
    method SkipRunes(content: Text) returns (rest: Text)
      requires mode == Retry && skipRemaining > 0
      requires exact ==>
        Aligned(consumed, delivered, skipRemaining) && delivered <= text && consumed + content <= text
      modifies this`skipRemaining
      ensures exact ==> Aligned(consumed + content, delivered + rest, skipRemaining) && delivered + rest <= text
      ensures rest == content[Width(content, old(skipRemaining))..]
      ensures rest == [] <==> RuneCount(content) <= old(skipRemaining)
      ensures skipRemaining ==
        if RuneCount(content) <= old(skipRemaining) then old(skipRemaining) - RuneCount(content) else 0
    {
      var tail, remaining := TrimLeadingRunes(content, skipRemaining);
      WidthSplits(content, skipRemaining);
      ghost var cut := content[..Width(content, skipRemaining)];
      assert content == cut + tail;
      if exact {
        SkipAligns(consumed, delivered, skipRemaining, cut, tail, remaining, text);
      }
      skipRemaining := remaining;
      return tail;
    }

    /** Consumes one chunk line and says whether anything of it is to be delivered. */
    method TakeChunk() returns (keep: bool, chunk: Chunk)
      requires Texts() && InStep() && lines != [] && lines[0].Data?
      modifies this`lines, this`skipRemaining, this`accumulated, this`accumulatedRunes, this`delivered, this`consumed
      ensures Texts() && InStep() && lines == old(lines)[1..]
      ensures keep <==> Kept(old(lines)[0].chunk, old(Skip()))
      ensures chunk == Trimmed(old(lines)[0].chunk, old(Skip()))
      ensures Skip() == SkipAfter(old(lines)[0].chunk, old(Skip()))
      ensures delivered == if keep then old(delivered) + Content(chunk) else old(delivered)
    {
      ghost var whole := Content(lines[0].chunk);
      assert exact ==> Replays(consumed + whole, lines[1..], text) && consumed + whole <= text by {
        if exact {
          ReplayStep(consumed, lines, text);
        }
      }
      var drop;
      chunk, drop := SkipDelivered(lines[0].chunk);
      lines := lines[1..];
      consumed := consumed + whole;
      if drop {
        assert delivered + [] == delivered;
        return false, chunk;
      }
      Deliver(chunk);
      return true, chunk;
    }

    method Deliver(chunk: Chunk)
      requires Texts() && (exact ==> delivered + Content(chunk) <= text)
      modifies this`accumulated, this`accumulatedRunes, this`delivered
      ensures Texts() && delivered == old(delivered) + Content(chunk)
    {
      if |chunk.choices| > 0 {
        AppendAccumulated(chunk.choices[0].content);
      } else {
        assert delivered + [] == delivered;
      }
    }

    method RecoverOrFail() returns (r: Result)
      requires Promise() && Inv() && !closed && (broken || !seenDone)
      modifies this
      ensures Ready() && retryCount >= old(retryCount)
      ensures r.Got? ==> !closed && delivered == old(delivered) + Content(r.chunk)
      ensures !r.Got? ==> r.Failed? && closed && delivered == old(delivered) && GaveUp()
      ensures Told(r.Got?, false, old(retryCount), old(delivered))
      ensures r.Got? ==> mode != Off && Recovered(r.chunk, old(retryCount), old(delivered))
      decreases RetriesLeft(), 2
    {
      r := RecoverWhilePossible();
      if !r.Got? {
        Finish();
      }
    }

    method RecoverWhilePossible() returns (r: Result)
      requires Promise() && Inv()
      modifies this
      ensures Inv() && retryCount >= old(retryCount)
      ensures r.Got? ==> !closed && InStep() && delivered == old(delivered) + Content(r.chunk)
      ensures !r.Got? ==> r.Failed? && delivered == old(delivered) && GaveUp()
      ensures Told(r.Got?, false, old(retryCount), old(delivered))
      ensures r.Got? ==> mode != Off && Recovered(r.chunk, old(retryCount), old(delivered))
      decreases RetriesLeft(), 1
    {
      var can := CanRecover();
      while can
        invariant Inv() && retryCount >= old(retryCount) && delivered == old(delivered)
        invariant can ==> mode != Off && retryCount < maxRetries
        invariant !can ==> GaveUp()
        invariant Told(false, false, old(retryCount), old(delivered))
        invariant can ==> !SomeYields(old(retryCount), retryCount, delivered)
        decreases RetriesLeft()
      {
        ghost var k := retryCount;
        r := TryRecover();
        YieldsSplit(old(retryCount), k, retryCount, delivered);
        if r.Got? {
          YieldsSplit(old(retryCount), k, retryCount - 1, old(delivered));
          return;
        }
        can := CanRecover();
      }
      return Failed;
    }

    /** Starts recovery number `retryCount` and reports its end at once if no body comes of it. */
    method SendAgain(attempt: Attempt) returns (started: bool)
      requires Accounts() && !closed && requestEnded && Begun(Request, log) < begunBefore + retryCount
      modifies this`log, this`requestEnded, this`release, this`lines, this`broken, this`deployment
      ensures Accounts() && started == attempt.Opened?
      ensures started ==> lines == attempt.body.lines && broken == attempt.body.broken && deployment == attempt.target
    {
      if attempt.PickFailed? || attempt.ProviderMissing? || attempt.BuildFailed? || attempt.AcquireFailed? {
        return false;
      }
      NoteBoth(true, attempt.target);
      requestEnded, release := false, true;
      if !attempt.Opened? {
        NoteBoth(false, attempt.target);
        requestEnded, release := true, false;
        return false;
      }
      lines, broken, deployment := attempt.body.lines, attempt.body.broken, attempt.target;
      return true;
    }

    /** Gives up the current attempt and winds back to the first rune of the text. */
    method WindBack()
      requires Inv() && mode != Off && retryCount < maxRetries
      modifies this`log, this`requestEnded, this`release, this`closed, this`retryCount, this`skipRemaining
      ensures Accounts() && Texts() && requestEnded && !closed && retryCount == old(retryCount) + 1
      ensures Begun(Request, log) < begunBefore + retryCount
      ensures mode == Retry ==> skipRemaining == accumulatedRunes
    {
      EndRequest();
      closed := false;
      retryCount := retryCount + 1;
      if mode == Retry {
        skipRemaining := accumulatedRunes;
      }
    }

    method TryRecover() returns (r: Result)
      requires Promise() && Inv() && mode != Off && retryCount < maxRetries
      modifies this
      ensures Inv() && retryCount > old(retryCount)
      ensures r.Got? ==> !closed && InStep() && delivered == old(delivered) + Content(r.chunk)
      ensures !r.Got? ==> delivered == old(delivered)
      ensures Told(r.Got?, false, old(retryCount), old(delivered))
      ensures r.Got? ==> Recovered(r.chunk, old(retryCount), old(delivered))
      decreases RetriesLeft(), 0
    {
      ghost var before, got := retryCount, delivered;
      var started := Reopen();
      if !started {
        return Failed;
      }
      ghost var found := Ahead();
      r := Recv();
      ToldOn(r.Got?, found.FindsChunk?, before, got);
      if r.Got? {
        RecoveredOn(r.chunk, found.FindsChunk?, before, got);
      }
    }

    /** What is told from the first recovery on is told from before it. */
    lemma ToldOn(chunk: bool, found: bool, before: nat, got: seq<Byte>)
      requires before < retryCount && (found <==> Yields(before + 1, got)) && Told(chunk, found, before + 1, got)
      ensures Told(chunk, false, before, got)
    {
      YieldsSplit(before, before + 1, retryCount, got);
    }

    lemma RecoveredOn(chunk: Chunk, found: bool, before: nat, got: seq<Byte>)
      requires before < retryCount && (found <==> Yields(before + 1, got))
      requires if found then retryCount == before + 1 && Shown(retryCount, got) == FindsChunk(chunk, lines, Skip())
        else Recovered(chunk, before + 1, got)
      ensures Recovered(chunk, before, got)
    {
      if !found {
        YieldsSplit(before, before + 1, retryCount - 1, got);
      }
    }

    /** Everything of a recovery but the scan of the new body. */
    method Reopen() returns (started: bool)
      requires Promise() && Inv() && mode != Off && retryCount < maxRetries
      modifies this`log, this`requestEnded, this`release, this`closed, this`retryCount, this`skipRemaining
      modifies this`lines, this`broken, this`deployment, this`checks, this`consumed
      ensures Accounts() && Texts() && !closed && retryCount == old(retryCount) + 1
      ensures started ==> InStep() && AtStart()
      ensures !started && !Cancelled() ==> !Meets(retryCount, delivered).Opened?
    {
      WindBack();
      started := Resume();
    }

    /** After the back-off, unless the context ends in it, the request goes out again. */
    method Resume() returns (started: bool)
      requires Accounts() && Promise() && Texts() && mode != Off
      requires !closed && requestEnded && Begun(Request, log) < begunBefore + retryCount
      requires mode == Retry ==> skipRemaining == accumulatedRunes
      modifies this`log, this`requestEnded, this`release, this`lines, this`broken, this`deployment, this`consumed
      modifies this`checks
      ensures Accounts() && (started ==> InStep() && AtStart())
      ensures !started && !Cancelled() ==> !Meets(retryCount, delivered).Opened?
    {
      if waits {
        var cancelled := ContextErr();
        if cancelled {
          return false;
        }
      }
      started := Resend();
    }

    /** Sends the request of a recovery: in append mode with what was delivered, else as it was. */
    method Resend() returns (started: bool)
      requires Accounts() && Promise() && Texts() && mode != Off
      requires !closed && requestEnded && Begun(Request, log) < begunBefore + retryCount
      requires mode == Retry ==> skipRemaining == accumulatedRunes
      modifies this`log, this`requestEnded, this`release, this`lines, this`broken, this`deployment, this`consumed
      ensures Accounts() && (started ==> InStep() && AtStart())
      ensures !started ==> !Meets(retryCount, delivered).Opened?
    {
      var sent := if mode == Append then accumulated else [];
      started := SendAgain(upstream(retryCount, sent));
      if started {
        Rescan(sent);
      }
    }

    /** The scanner stands at the start of a new body. */
    ghost method Rescan(sent: seq<Byte>)
      requires Promise() && Texts() && mode != Off
      requires upstream(retryCount, sent).Opened? && lines == upstream(retryCount, sent).body.lines
      requires mode == Retry ==> skipRemaining == accumulatedRunes
      requires sent == if mode == Append then accumulated else []
      modifies this`consumed
      ensures InStep()
    {
      consumed := sent;
      if exact {
        assert mode == Append ==> sent == delivered;
        NothingConsumed(delivered);
        assert Resends(mode, text, sent);
      }
    }

    // -------------------------------------------------------------- whole runs

    /** Makes the given calls in order; the contract is about everything they returned. The tale tells, body by body,
        which chunks came and which of them were handed on. */
    method Run(calls: seq<Call>) returns (replies: seq<Reply>, ghost tale: Tale)
      requires Ready() && !closed && delivered == [] && retryCount == 0 && lines == first && Skip() == 0
      modifies this
      ensures Ready() && |replies| == |calls| && delivered == Received(replies)
      ensures CallClose in calls ==> closed
      ensures closed ==> Open(Request, log) == Idle && Open(Permit, log) == Idle && Puts(log) == 1
      ensures exact ==> Received(replies) <= text
      ensures exact ==> EndsComplete(replies, text)
      ensures retryCount > 0 ==> retryCount <= maxRetries
      ensures Begun(Request, log) <= begunBefore + retryCount
      ensures Knows(tale, Here()) && AllGot(replies) == AllHanded(tale)
      ensures forall e <- tale.past + [tale.now] :: Lawful(e) && (mode != Retry ==> e.skip == 0)
      ensures forall e <- tale.past :: ReadThrough(e)
      ensures Ended(replies) ==> ReadThrough(tale.now)
    {
      replies, tale := Play(calls);
      CloseAsked(calls, |calls|);
      forall e | e in tale.past
        ensures Lawful(e) && ReadThrough(e) && (mode != Retry ==> e.skip == 0)
      {
        ChainLawful(tale.past, e);
      }
      HeardIsLawful(tale.now);
    }

    method Play(calls: seq<Call>) returns (replies: seq<Reply>, ghost tale: Tale)
      requires Ready() && !closed && delivered == [] && retryCount == 0 && lines == first && Skip() == 0
      modifies this
      ensures Underway(replies, tale) && |replies| == |calls|
      ensures AsksClose(calls, |calls|) ==> closed
    {
      replies, tale := [], Tale([], Episode(0, first, 0, 0, []));
      TaleBegins(Here());
      for i := 0 to |calls|
        invariant Underway(replies, tale) && |replies| == i
        invariant AsksClose(calls, i) ==> closed
      {
        var reply;
        reply, tale := Continue(calls[i], replies, tale);
        replies := replies + [reply];
      }
    }

    /** The replies so far hold what was delivered, and an end among them came after the whole text. */
    ghost predicate Story(replies: seq<Reply>)
      reads this`delivered, this`closed
    {
      && delivered == Received(replies)
      && (!AllChunks(replies) <==> closed)
      && (exact ==> EndsComplete(replies, text))
    }

    ghost predicate Underway(replies: seq<Reply>, tale: Tale)
      reads this
    {
      Ready() && Story(replies) && Knows(tale, Here()) && Matches(replies, tale)
    }

    lemma TaleBegins(c: Cursor)
      requires c.lines == first && c.skip == 0 && c.got == [] && c.recoveries == 0
      ensures var tale := Tale([], Episode(0, first, 0, 0, []));
        Knows(tale, c) && Matches([], tale)
    {
      assert first[0..] == first;
    }

    method Continue(call: Call, ghost replies: seq<Reply>, ghost tale: Tale) returns (reply: Reply, ghost next: Tale)
      requires Underway(replies, tale)
      modifies this
      ensures Underway(replies + [reply], next)
      ensures old(closed) || call == CallClose ==> closed
    {
      ghost var before := Here();
      reply := MakeCall(call);
      OneMore(replies, reply, text);
      next := TaleGoesOn(tale, before, reply, Here());
      OneMoreMatches(replies, tale, reply, next);
    }

    method MakeCall(call: Call) returns (reply: Reply)
      requires Ready()
      modifies this
      ensures Ready() && delivered == old(delivered) + Part(reply)
      ensures call == CallClose ==> closed
      ensures old(closed) || !IsChunk(reply) ==> closed
      ensures IsChunk(reply) ==> !closed
      ensures !old(closed) && reply == Returned(Eof) && exact ==> delivered == text
      ensures Leads(old(Here()), reply, Here())
    {
      if call == CallClose {
        Close();
        assert delivered + [] == delivered;
        return Acknowledged;
      }
      var r := Recv();
      assert !r.Got? ==> delivered + [] == delivered;
      return Returned(r);
    }
  }

  /** A stream that is delivered in full and ends in an error: the first body brings all of the text and breaks, the one
      recovery left replays it to the end marker, and that end counts as a recovery that failed. */
  method CompleteButFailed() returns (reader: StreamReader, first: Result, second: Result)
    ensures reader.exact && reader.mode == Retry && reader.delivered == reader.text == [65]
    ensures first.Got? && Content(first.chunk) == reader.text && second == Failed
  {
    var piece: Text := [65];
    var chunk := Chunk([Delta(piece, "", 0)]);
    var target := Deployment("a", "p", "m");
    var whole := Body([Data(chunk), DoneMarker], false);
    var upstream := (k: nat, sent: seq<Byte>) => Opened(target, whole);
    ghost var log := [Begin(Request, target), Begin(Permit, target)];
    OneOpen(target);
    OnePiece(chunk, whole.lines);
    reader := new StreamReader(Retry, 1, 0, false, upstream, None, Body([Data(chunk)], true), target, log, piece);
    assert reader.RecoveriesReplay();
    first := reader.Recv();
    second := reader.Recv();
  }

  lemma OneOpen(target: Deployment)
    ensures var log := [Begin(Request, target), Begin(Permit, target)];
      Open(Request, log) == Busy(target) && Open(Permit, log) == Busy(target) && Puts(log) == 0
  {
    Noted([], Begin(Request, target));
    Noted([Begin(Request, target)], Begin(Permit, target));
    assert [] + [Begin(Request, target)] == [Begin(Request, target)];
    assert [Begin(Request, target)] + [Begin(Permit, target)] == [Begin(Request, target), Begin(Permit, target)];
  }

  /** One piece of text, alone and before the end marker. */
  lemma OnePiece(chunk: Chunk, lines: seq<Line>)
    requires chunk == Chunk([Delta([65], "", 0)]) && lines == [Data(chunk), DoneMarker]
    ensures Replays([], [Data(chunk)], [65]) && Replays([], lines, [65])
    ensures ScanOf(lines, 1) == FindsEnd && ScanOf([Data(chunk)], 0) == FindsChunk(chunk, [], 0)
    ensures RuneCount([65]) == 1
  {
    var a: seq<Byte> := [65];
    assert a[1..] == [] && RuneCount(a) == 1;
    assert lines[1..] == [DoneMarker] && [Data(chunk)][1..] == [];
    assert Spoken([DoneMarker]) == [];
    assert Spoken(lines) == a + [];
    assert Spoken([Data(chunk)]) == a + [];
    assert SkipAfter(chunk, 1) == 0 && !Kept(chunk, 1);
    assert ScanOf([DoneMarker], 0) == FindsEnd;
  }

  // ---------------------------------------------------------------- what a caller sees

  datatype Call = CallRecv | CallClose

  /** One of the first `n` calls is Close. */
  ghost predicate AsksClose(calls: seq<Call>, n: nat)
    requires n <= |calls|
  {
    n > 0 && (calls[n - 1] == CallClose || AsksClose(calls, n - 1))
  }

  lemma {:induction false} CloseAsked(calls: seq<Call>, n: nat)
    requires n <= |calls|
    ensures CallClose in calls[..n] <==> AsksClose(calls, n)
    ensures calls[..|calls|] == calls
  {
    if n > 0 {
      CloseAsked(calls, n - 1);
      assert calls[..n] == calls[..n - 1] + [calls[n - 1]];
    }
  }

  datatype Reply = Returned(result: Result) | Acknowledged

  ghost predicate IsChunk(reply: Reply) {
    reply.Returned? && reply.result.Got?
  }

  ghost predicate AllChunks(replies: seq<Reply>) {
    forall r <- replies :: IsChunk(r)
  }

  ghost function Part(reply: Reply): seq<Byte> {
    if IsChunk(reply) then Content(reply.result.chunk) else []
  }

  /** First-choice content of everything returned. */
  ghost function Received(replies: seq<Reply>): seq<Byte> {
    if replies == [] then []
    else Received(replies[..|replies| - 1]) + Part(replies[|replies| - 1])
  }

  ghost function Brought(reply: Reply): seq<Chunk> {
    if IsChunk(reply) then [reply.result.chunk] else []
  }

  /** The chunks returned. */
  ghost function AllGot(replies: seq<Reply>): seq<Chunk> {
    if replies == [] then [] else AllGot(replies[..|replies| - 1]) + Brought(replies[|replies| - 1])
  }

  /** The stream ended in a Recv, rather than by Close. */
  ghost predicate Ended(replies: seq<Reply>) {
    exists i :: 0 <= i < |replies| && EndedAt(replies, i)
  }

  ghost predicate EndedAt(replies: seq<Reply>, i: nat)
    requires i < |replies|
  {
    AllChunks(replies[..i]) && replies[i].Returned? && !IsChunk(replies[i])
  }

  ghost predicate Matches(replies: seq<Reply>, tale: Tale) {
    AllGot(replies) == AllHanded(tale) && (Ended(replies) ==> ReadThrough(tale.now))
  }

  lemma OneMoreMatches(replies: seq<Reply>, tale: Tale, reply: Reply, next: Tale)
    requires Matches(replies, tale) && AllHanded(next) == AllHanded(tale) + Brought(reply)
    requires !AllChunks(replies) ==> next == tale
    requires AllChunks(replies) && reply.Returned? && !IsChunk(reply) ==> ReadThrough(next.now)
    ensures Matches(replies + [reply], next)
  {
    var more := replies + [reply];
    assert more[..|replies|] == replies;
    if Ended(more) {
      var i :| 0 <= i < |more| && EndedAt(more, i);
      if i < |replies| {
        assert more[..i] == replies[..i] && EndedAt(replies, i);
        assert replies[i] in replies;
      }
    }
  }

  /** If the first reply that is not a chunk is the end of the stream, all of `text` came before it. */
  ghost predicate EndsComplete(replies: seq<Reply>, text: seq<Byte>) {
    forall i :: 0 <= i < |replies| ==> CompleteAt(replies, i, text)
  }

  ghost predicate CompleteAt(replies: seq<Reply>, i: nat, text: seq<Byte>)
    requires i < |replies|
  {
    AllChunks(replies[..i]) && replies[i] == Returned(Eof) ==> Received(replies[..i]) == text
  }

  lemma OneMore(replies: seq<Reply>, reply: Reply, text: seq<Byte>)
    ensures Received(replies + [reply]) == Received(replies) + Part(reply)
    ensures AllChunks(replies + [reply]) ==> AllChunks(replies) && IsChunk(reply)
    ensures EndsComplete(replies, text) && (AllChunks(replies) && reply == Returned(Eof) ==> Received(replies) == text)
      ==> EndsComplete(replies + [reply], text)
  {
    var more := replies + [reply];
    assert more[..|replies|] == replies;
    assert reply in more;
    forall i | 0 <= i < |replies| && EndsComplete(replies, text)
      ensures CompleteAt(more, i, text)
    {
      assert more[..i] == replies[..i] && CompleteAt(replies, i, text);
    }
  }
}
