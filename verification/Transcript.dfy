/** The projection of a stored remote transcript into prose messages and tool cards.

    Tool results arrive apart from the calls that they answer. Four passes turn them into cards: calls carried by
    messages, calls listed beside the transcript, results without an identity, and results whose call is missing.
    Cards with the same identity are merged.
 */
module Transcript {
  import opened Wrappers

  // A tool result. `again` is the text of `output` when that is projected a second time.
  datatype RawResult = RawResult(id: string, name: string, output: string, again: string, failed: bool)

  datatype Call = Call(id: string, name: string, title: string, input: string, isError: bool, error: string,
                       unfinished: bool)

  datatype Role = User | Assistant | System | OtherRole

  datatype Message = Message(id: string, role: Role, text: string, streaming: bool, pending: bool, error: string,
                             results: seq<RawResult>, calls: seq<Call>)

  // A call listed beside the transcript. Its output, when it has one, is projected and may become empty.
  datatype Sidecar = Sidecar(call: Call, assistant: int, output: Option<string>)

  // A sidecar entry that is not an object is skipped, but it counts.
  datatype Session = Session(id: string, offset: nat, messages: seq<Message>, sidecars: seq<Option<Sidecar>>)

  datatype Noted = Noted(id: string, name: string, output: string, again: string, failed: bool, order: int,
                         sourceIndex: int)

  datatype Status = Completed | Interrupted | Error

  datatype Card = Card(id: string, name: string, title: string, status: Status, input: string, output: string,
                       error: string, order: int, sourceIndex: int)

  datatype Row = Row(id: string, role: Role, text: string, streaming: bool, pending: bool, error: string, order: int,
                     sourceIndex: int)

  datatype Projection = Projection(rows: seq<Row>, tools: seq<Card>)

  const MAX_MESSAGES := 250
  const MAX_TOOLS := 250
  const MAX_ERROR := 500

  function Decimal(n: nat): string {
    var digit := ['0' + (n % 10) as char];
    if n < 10 then digit else Decimal(n / 10) + digit
  }

  function Shortened(text: string): string {
    if |text| <= MAX_ERROR then text else text[..MAX_ERROR]
  }

  // ---------------------------------------------------------------------------------------------------------------
  // Results
  // ---------------------------------------------------------------------------------------------------------------

  function NotedAt(s: Session, i: nat, r: RawResult): Noted {
    Noted(r.id, r.name, r.output, r.again, r.failed, (s.offset + i) * 1000 + 900, s.offset + i)
  }

  function MessageNotes(s: Session, i: nat): seq<Noted>
    requires i < |s.messages|
  {
    var results := s.messages[i].results;
    seq(|results|, k requires 0 <= k < |results| => NotedAt(s, i, results[k]))
  }

  // All results of the first n messages.
  function Notes(s: Session, n: nat): seq<Noted>
    requires n <= |s.messages|
  {
    if n == 0 then [] else Notes(s, n - 1) + MessageNotes(s, n - 1)
  }

  // The results under their identities, as a dictionary: identities in the order of their first arrival.
  datatype Index = Index(byId: map<string, Noted>, ids: seq<string>, orphans: seq<Noted>)

  function Note(x: Index, r: Noted): Index {
    if r.id == "" then x.(orphans := x.orphans + [r])
    else Index(x.byId[r.id := r], if r.id in x.byId then x.ids else x.ids + [r.id], x.orphans)
  }

  function NoteAll(notes: seq<Noted>): Index {
    if notes == [] then Index(map[], [], []) else Note(NoteAll(notes[..|notes| - 1]), notes[|notes| - 1])
  }

  // ---------------------------------------------------------------------------------------------------------------
  // Cards
  // ---------------------------------------------------------------------------------------------------------------

  predicate CallFailed(c: Call) {
    c.isError || c.error != ""
  }

  function CallCard(s: Session, x: Index, i: nat, k: nat): Card
    requires i < |s.messages| && k < |s.messages[i].calls|
  {
    var c := s.messages[i].calls[k];
    var id := if c.id != "" then c.id
              else "remote-tool-" + s.id + "-" + Decimal(s.offset + i) + "-" + Decimal(k);
    var failed := (id in x.byId && x.byId[id].failed) || CallFailed(c);
    Card(id, c.name, c.title, if failed then Error else if c.unfinished then Interrupted else Completed, c.input,
         if id in x.byId then x.byId[id].output else "", if failed then Shortened(c.error) else "",
         (s.offset + i) * 1000 + 100 + k, s.offset + i)
  }

  function MessageCards(s: Session, x: Index, i: nat): seq<Card>
    requires i < |s.messages|
  {
    seq(|s.messages[i].calls|, k requires 0 <= k < |s.messages[i].calls| => CallCard(s, x, i, k))
  }

  function CarrierCards(s: Session, x: Index, n: nat): seq<Card>
    requires n <= |s.messages|
  {
    if n == 0 then [] else CarrierCards(s, x, n - 1) + MessageCards(s, x, n - 1)
  }

  function SidecarCard(s: Session, x: Index, k: nat): Card
    requires k < |s.sidecars| && s.sidecars[k].Some?
  {
    var c := s.sidecars[k].value;
    var id := if c.call.id != "" then c.call.id else "remote-sidecar-tool-" + s.id + "-" + Decimal(k);
    var failed := CallFailed(c.call) || (id in x.byId && x.byId[id].failed);
    Card(id, c.call.name, c.call.title, if failed then Error else Completed, c.call.input,
         if c.output.Some? then c.output.value else if id in x.byId then x.byId[id].again else "",
         if failed then Shortened(c.call.error) else "",
         if c.assistant >= 0 then c.assistant * 1000 + 100 + k
         else if id in x.byId && x.byId[id].order != 0 then x.byId[id].order
         else (s.offset + |s.messages|) * 1000 + k,
         c.assistant)
  }

  function SidecarCards(s: Session, x: Index, n: nat): seq<Card>
    requires n <= |s.sidecars|
  {
    if n == 0 then [] else SidecarCards(s, x, n - 1) + if s.sidecars[n - 1].Some? then [SidecarCard(s, x, n - 1)] else []
  }

  // A card that stands for a result alone.
  function ResultCard(id: string, r: Noted): Card {
    Card(id, if r.name != "" then r.name else "Tool result", "", if r.failed then Error else Completed, "", r.output,
         if r.failed then "Tool failed" else "", r.order, r.sourceIndex)
  }

  function OrphanId(s: Session, r: Noted, k: nat): string
    requires r.sourceIndex >= 0
  {
    "remote-orphan-tool-" + s.id + "-" + Decimal(r.sourceIndex) + "-" + Decimal(k)
  }

  function OrphanCards(s: Session, orphans: seq<Noted>): seq<Card>
    requires forall k :: 0 <= k < |orphans| ==> orphans[k].sourceIndex >= 0
  {
    seq(|orphans|, k requires 0 <= k < |orphans| => ResultCard(OrphanId(s, orphans[k], k), orphans[k]))
  }

  function IdsOf(cards: seq<Card>): set<string> {
    set c | c in cards :: c.id
  }

  // Cards for the results that no earlier card answers.
  function UnmatchedCards(x: Index, ids: seq<string>, answered: set<string>): seq<Card>
    requires forall id :: id in ids ==> id in x.byId
  {
    if ids == [] then []
    else
      var id := ids[|ids| - 1];
      UnmatchedCards(x, ids[..|ids| - 1], answered) + if id in answered then [] else [ResultCard(id, x.byId[id])]
  }

  // ---------------------------------------------------------------------------------------------------------------
  // Merging
  // ---------------------------------------------------------------------------------------------------------------

  datatype Tools = Tools(byId: map<string, Card>, order: seq<string>)

  function Pick(before: string, after: string): string {
    if after == "" then before else after
  }

  function Merge(a: Card, b: Card): Card {
    Card(a.id, Pick(a.name, b.name), Pick(a.title, b.title), b.status, Pick(a.input, b.input),
         Pick(a.output, b.output), Pick(a.error, b.error), b.order, b.sourceIndex)
  }

  function Upsert(t: Tools, c: Card): Tools {
    if c.id == "" then t
    else if c.id !in t.byId then Tools(t.byId[c.id := c], t.order + [c.id])
    else t.(byId := t.byId[c.id := Merge(t.byId[c.id], c)])
  }

  function UpsertAll(cards: seq<Card>): Tools {
    if cards == [] then Tools(map[], []) else Upsert(UpsertAll(cards[..|cards| - 1]), cards[|cards| - 1])
  }

  // ---------------------------------------------------------------------------------------------------------------
  // Rows
  // ---------------------------------------------------------------------------------------------------------------

  predicate Shown(m: Message) {
    !m.role.OtherRole? && (m.text != "" || m.streaming || m.pending || m.error != "")
  }

  function RowOf(s: Session, i: nat): Row
    requires i < |s.messages|
  {
    var m := s.messages[i];
    Row(if m.id != "" then m.id else "remote-" + s.id + "-" + Decimal(s.offset + i), m.role, m.text, m.streaming,
        m.pending, Shortened(m.error), (s.offset + i) * 1000, s.offset + i)
  }

  function Rows(s: Session, n: nat): seq<Row>
    requires n <= |s.messages|
  {
    if n == 0 then [] else Rows(s, n - 1) + if Shown(s.messages[n - 1]) then [RowOf(s, n - 1)] else []
  }

  // ---------------------------------------------------------------------------------------------------------------
  // Sorting and limits
  // ---------------------------------------------------------------------------------------------------------------

  predicate Before(a: Card, b: Card) {
    a.order < b.order || (a.order == b.order && TextBefore(a.id, b.id))
  }

  function Insert(c: Card, sorted: seq<Card>): seq<Card> {
    if sorted == [] || !Before(sorted[0], c) then [c] + sorted else [sorted[0]] + Insert(c, sorted[1..])
  }

  function Sort(cards: seq<Card>): seq<Card> {
    if cards == [] then [] else Insert(cards[0], Sort(cards[1..]))
  }

  function NotBelow(cards: seq<Card>, floor: int): seq<Card> {
    if cards == [] then []
    else (if cards[0].order >= floor then [cards[0]] else []) + NotBelow(cards[1..], floor)
  }

  function Last<T>(s: seq<T>, n: nat): seq<T> {
    if |s| <= n then s else s[|s| - n..]
  }

  function Limited(rows: seq<Row>, tools: seq<Card>): Projection {
    var kept := Last(rows, MAX_MESSAGES);
    Projection(kept, Last(if |rows| > MAX_MESSAGES then NotBelow(tools, kept[0].order) else tools, MAX_TOOLS))
  }

  // ---------------------------------------------------------------------------------------------------------------
  // The projection
  // ---------------------------------------------------------------------------------------------------------------

  function IndexOf(s: Session): Index {
    NoteAll(Notes(s, |s.messages|))
  }

  function EarlierCards(s: Session): seq<Card> {
    var x := IndexOf(s);
    IndexIsSound(s, x);
    CarrierCards(s, x, |s.messages|) + SidecarCards(s, x, |s.sidecars|) + OrphanCards(s, x.orphans)
  }

  // Every card of every pass.
  function AllCards(s: Session): seq<Card> {
    var x := IndexOf(s);
    IndexIsSound(s, x);
    EarlierCards(s) + UnmatchedCards(x, x.ids, IdsOf(EarlierCards(s)))
  }

  function Listed(t: Tools): seq<Card>
    requires forall id :: id in t.order ==> id in t.byId
  {
    seq(|t.order|, k requires 0 <= k < |t.order| => t.byId[t.order[k]])
  }

  lemma {:induction false} NotesAreSound(s: Session, n: nat)
    requires n <= |s.messages|
    ensures forall r :: r in Notes(s, n) ==> r.sourceIndex >= 0 && r.order > 0
  {
    if n > 0 {
      NotesAreSound(s, n - 1);
    }
  }

  lemma {:induction false} NoteAllIs(notes: seq<Noted>)
    ensures var x := NoteAll(notes);
      && (forall id :: id in x.ids <==> id in x.byId)
      && (forall i, j :: 0 <= i < j < |x.ids| ==> x.ids[i] != x.ids[j])
      && (forall id :: id in x.byId ==> id != "" && x.byId[id] in notes && x.byId[id].id == id)
      && (forall r :: r in x.orphans <==> r in notes && r.id == "")
      && (forall r :: r in notes && r.id != "" ==> r.id in x.byId)
  {
    if notes != [] {
      NoteAllIs(notes[..|notes| - 1]);
      var x, r := NoteAll(notes[..|notes| - 1]), notes[|notes| - 1];
      assert notes == notes[..|notes| - 1] + [r];
    }
  }

  lemma IndexIsSound(s: Session, x: Index)
    requires x == IndexOf(s)
    ensures forall k :: 0 <= k < |x.orphans| ==> x.orphans[k].sourceIndex >= 0
    ensures forall id :: id in x.ids ==> id in x.byId
  {
    NotesAreSound(s, |s.messages|);
    NoteAllIs(Notes(s, |s.messages|));
    assert forall k :: 0 <= k < |x.orphans| ==> x.orphans[k] in x.orphans;
  }

  // ---------------------------------------------------------------------------------------------------------------
  // Merged cards
  // ---------------------------------------------------------------------------------------------------------------

  ghost predicate IsKeyed(t: Tools) {
    forall id :: id in t.byId ==> t.byId[id].id == id
  }

  /** Every identity has exactly one card. */
  lemma {:induction false} UpsertAllIs(cards: seq<Card>)
    ensures forall id :: id in UpsertAll(cards).byId <==> id != "" && id in IdsOf(cards)
    ensures IsKeyed(UpsertAll(cards))
  {
    if cards != [] {
      var rest, c := cards[..|cards| - 1], cards[|cards| - 1];
      UpsertAllIs(rest);
      IdsOfAppend(rest, c);
      assert cards == rest + [c];
    }
  }

  ghost predicate OrderIsSound(t: Tools) {
    && (forall id :: id in t.order <==> id in t.byId)
    && (forall i, j :: 0 <= i < j < |t.order| ==> t.order[i] != t.order[j])
  }

  lemma UpsertKeepsOrder(t: Tools, c: Card)
    requires OrderIsSound(t)
    ensures OrderIsSound(Upsert(t, c))
  {
    assert forall id :: id in t.order + [c.id] <==> id in t.order || id == c.id;
  }

  lemma {:induction false} OrderIsUnique(cards: seq<Card>)
    ensures OrderIsSound(UpsertAll(cards))
  {
    if cards != [] {
      OrderIsUnique(cards[..|cards| - 1]);
      UpsertKeepsOrder(UpsertAll(cards[..|cards| - 1]), cards[|cards| - 1]);
    }
  }

  lemma IdsOfAppend(cards: seq<Card>, c: Card)
    ensures IdsOf(cards + [c]) == IdsOf(cards) + {c.id}
  {
    assert forall d :: d in cards + [c] <==> d in cards || d == c;
  }

  datatype Field = Name | Title | Input | Output | ErrorText

  function TextOf(c: Card, f: Field): string {
    match f
    case Name => c.name
    case Title => c.title
    case Input => c.input
    case Output => c.output
    case ErrorText => c.error
  }

  // The last text that is not empty among the cards of an identity.
  function LastText(cards: seq<Card>, id: string, f: Field): string {
    if cards == [] then ""
    else
      var c := cards[|cards| - 1];
      if c.id == id && TextOf(c, f) != "" then TextOf(c, f) else LastText(cards[..|cards| - 1], id, f)
  }

  function LastCard(cards: seq<Card>, id: string): Option<Card> {
    if cards == [] then None
    else if cards[|cards| - 1].id == id then Some(cards[|cards| - 1])
    else LastCard(cards[..|cards| - 1], id)
  }

  lemma UpsertText(t: Tools, c: Card, id: string, f: Field)
    requires id != "" && (id in t.byId || c.id == id)
    ensures id in Upsert(t, c).byId
    ensures TextOf(Upsert(t, c).byId[id], f) ==
      if c.id != id then TextOf(t.byId[id], f)
      else if id in t.byId then Pick(TextOf(t.byId[id], f), TextOf(c, f)) else TextOf(c, f)
  {
  }

  /** A merged card shows the last text that is not empty of each field, and the last status and place. */
  lemma {:induction false} MergedTextIsLast(cards: seq<Card>, id: string, f: Field)
    requires id != "" && id in IdsOf(cards)
    ensures id in UpsertAll(cards).byId
    ensures TextOf(UpsertAll(cards).byId[id], f) == LastText(cards, id, f)
  {
    var rest, c := cards[..|cards| - 1], cards[|cards| - 1];
    assert cards == rest + [c];
    IdsOfAppend(rest, c);
    if id in IdsOf(rest) {
      MergedTextIsLast(rest, id, f);
    } else {
      UpsertAllIs(rest);
      NoText(rest, id, f);
    }
    UpsertText(UpsertAll(rest), c, id, f);
  }

  lemma {:induction false} MergedPlaceIsLast(cards: seq<Card>, id: string)
    requires id != "" && id in IdsOf(cards)
    ensures id in UpsertAll(cards).byId && LastCard(cards, id).Some?
    ensures var c, last := UpsertAll(cards).byId[id], LastCard(cards, id).value;
      last in cards && c.status == last.status && c.order == last.order && c.sourceIndex == last.sourceIndex
    ensures LastCard(cards, id).value.id == id
  {
    var rest, c := cards[..|cards| - 1], cards[|cards| - 1];
    assert cards == rest + [c];
    IdsOfAppend(rest, c);
    UpsertAllIs(rest);
    if id in IdsOf(rest) {
      MergedPlaceIsLast(rest, id);
    }
  }

  lemma {:induction false} NoText(cards: seq<Card>, id: string, f: Field)
    requires id !in IdsOf(cards)
    ensures LastText(cards, id, f) == ""
  {
    if cards != [] {
      var rest, c := cards[..|cards| - 1], cards[|cards| - 1];
      assert cards == rest + [c];
      IdsOfAppend(rest, c);
      NoText(rest, id, f);
    }
  }

  lemma {:induction false} AgreedText(cards: seq<Card>, id: string, f: Field, text: string)
    requires forall c :: c in cards && c.id == id ==> TextOf(c, f) == text
    requires id in IdsOf(cards)
    ensures LastText(cards, id, f) == text
  {
    var rest, c := cards[..|cards| - 1], cards[|cards| - 1];
    assert cards == rest + [c];
    IdsOfAppend(rest, c);
    if id in IdsOf(rest) {
      AgreedText(rest, id, f, text);
    } else {
      NoText(rest, id, f);
    }
  }

  // ---------------------------------------------------------------------------------------------------------------
  // Cards say what their calls and results say
  // ---------------------------------------------------------------------------------------------------------------

  lemma {:induction false} NotesHold(s: Session, n: nat, i: nat, j: nat)
    requires i < n <= |s.messages| && j < |s.messages[i].results|
    ensures NotedAt(s, i, s.messages[i].results[j]) in Notes(s, n)
  {
    if i < n - 1 {
      NotesHold(s, n - 1, i, j);
    } else {
      assert MessageNotes(s, i)[j] in MessageNotes(s, i);
    }
  }

  /** Every result of a message is noted as it is, in its place behind the calls of the message. */
  lemma ResultIsNoted(s: Session, i: nat, j: nat)
    requires i < |s.messages| && j < |s.messages[i].results|
    ensures var r := s.messages[i].results[j];
      Noted(r.id, r.name, r.output, r.again, r.failed, (s.offset + i) * 1000 + 900, s.offset + i)
        in Notes(s, |s.messages|)
  {
    NotesHold(s, |s.messages|, i, j);
  }

  lemma {:induction false} CarrierCardsHold(s: Session, x: Index, n: nat, i: nat, k: nat)
    requires i < n <= |s.messages| && k < |s.messages[i].calls|
    ensures CallCard(s, x, i, k) in CarrierCards(s, x, n)
  {
    if i < n - 1 {
      CarrierCardsHold(s, x, n - 1, i, k);
    } else {
      assert MessageCards(s, x, i)[k] in MessageCards(s, x, i);
    }
  }

  // A card whose input failed, or whose result did.
  ghost predicate SaysFailed(s: Session, c: Card, call: Call) {
    c.status.Error? <==> call.isError || call.error != "" || (c.id in IndexOf(s).byId && IndexOf(s).byId[c.id].failed)
  }

  /** Every call that a message carries has a card with its name, title and input, the output of the last result of its
      identity, and its own or its result's failure, in the place of the call. */
  lemma CallHasCard(s: Session, i: nat, k: nat) returns (c: Card)
    requires i < |s.messages| && k < |s.messages[i].calls|
    ensures c in AllCards(s)
    ensures var call := s.messages[i].calls[k];
      && c.id == (if call.id != "" then call.id
                  else "remote-tool-" + s.id + "-" + Decimal(s.offset + i) + "-" + Decimal(k))
      && c.name == call.name && c.title == call.title && c.input == call.input
      && c.output == (if c.id in IndexOf(s).byId then IndexOf(s).byId[c.id].output else "")
      && SaysFailed(s, c, call) && (c.status.Interrupted? <==> call.unfinished && !c.status.Error?)
      && c.error == (if !c.status.Error? then "" else if |call.error| <= 500 then call.error else call.error[..500])
      && c.order == (s.offset + i) * 1000 + 100 + k && c.sourceIndex == s.offset + i
  {
    c := CallCard(s, IndexOf(s), i, k);
    IndexIsSound(s, IndexOf(s));
    CarrierCardsHold(s, IndexOf(s), |s.messages|, i, k);
  }

  lemma {:induction false} SidecarCardsHold(s: Session, x: Index, n: nat, k: nat)
    requires k < n <= |s.sidecars| && s.sidecars[k].Some?
    ensures SidecarCard(s, x, k) in SidecarCards(s, x, n)
  {
    if k < n - 1 {
      SidecarCardsHold(s, x, n - 1, k);
    } else {
      assert SidecarCards(s, x, n)[|SidecarCards(s, x, n)| - 1] == SidecarCard(s, x, k);
    }
  }

  /** So has every sidecar. Its own output comes first, even an empty one, and its place is behind its message, or that of
      its result. */
  lemma SidecarHasCard(s: Session, k: nat) returns (c: Card)
    requires k < |s.sidecars| && s.sidecars[k].Some?
    ensures c in AllCards(s)
    ensures var sidecar, known := s.sidecars[k].value, IndexOf(s).byId;
      && c.id == (if sidecar.call.id != "" then sidecar.call.id
                  else "remote-sidecar-tool-" + s.id + "-" + Decimal(k))
      && c.name == sidecar.call.name && c.title == sidecar.call.title && c.input == sidecar.call.input
      && c.output == (if sidecar.output.Some? then sidecar.output.value
                      else if c.id in known then known[c.id].again else "")
      && SaysFailed(s, c, sidecar.call) && !c.status.Interrupted?
      && c.error == (if !c.status.Error? then ""
                     else if |sidecar.call.error| <= 500 then sidecar.call.error else sidecar.call.error[..500])
      && c.sourceIndex == sidecar.assistant
      && c.order == (if sidecar.assistant >= 0 then sidecar.assistant * 1000 + 100 + k
                     else if c.id in known then known[c.id].order else (s.offset + |s.messages|) * 1000 + k)
  {
    c := SidecarCard(s, IndexOf(s), k);
    IndexIsSound(s, IndexOf(s));
    NotesAreSound(s, |s.messages|);
    NoteAllIs(Notes(s, |s.messages|));
    SidecarCardsHold(s, IndexOf(s), |s.sidecars|, k);
  }

  /** A result that no call, no sidecar and no result without identity answers has a card of its own. */
  lemma UnansweredHasCard(s: Session, id: string) returns (c: Card)
    requires id in IndexOf(s).byId && id !in IdsOf(EarlierCards(s))
    ensures c in AllCards(s) && c.id == id
    ensures var r := IndexOf(s).byId[id];
      && c.name == (if r.name != "" then r.name else "Tool result") && c.title == "" && c.input == ""
      && c.output == r.output && (c.status.Error? <==> r.failed) && !c.status.Interrupted?
      && c.error == (if r.failed then "Tool failed" else "") && c.order == r.order && c.sourceIndex == r.sourceIndex
  {
    var x := IndexOf(s);
    IndexIsSound(s, x);
    ResultHasCard(s, id);
    UnmatchedCardsAre(x, x.ids, IdsOf(EarlierCards(s)));
    c :| c in AllCards(s) && c.id == id;
  }

  /** A card that is the only one of its identity is shown as it is. */
  lemma SoleCardIsShown(s: Session, c: Card)
    requires c in AllCards(s) && c.id != "" && forall d :: d in AllCards(s) && d.id == c.id ==> d == c
    ensures c in AllTools(s)
  {
    SoleCard(AllCards(s), c);
    AllToolsAre(s);
  }

  lemma SoleCard(cards: seq<Card>, c: Card)
    requires c in cards && c.id != "" && forall d :: d in cards && d.id == c.id ==> d == c
    ensures c.id in UpsertAll(cards).byId && UpsertAll(cards).byId[c.id] == c
  {
    SoleText(cards, c, Name);
    SoleText(cards, c, Title);
    SoleText(cards, c, Input);
    SoleText(cards, c, Output);
    SoleText(cards, c, ErrorText);
    SolePlace(cards, c);
  }

  lemma SolePlace(cards: seq<Card>, c: Card)
    requires c in cards && c.id != "" && forall d :: d in cards && d.id == c.id ==> d == c
    ensures c.id in UpsertAll(cards).byId
    ensures var t := UpsertAll(cards).byId[c.id];
      t.id == c.id && t.status == c.status && t.order == c.order && t.sourceIndex == c.sourceIndex
  {
    IdIsThere(cards, c);
    MergedPlaceIsLast(cards, c.id);
    UpsertAllIs(cards);
  }

  lemma SoleText(cards: seq<Card>, c: Card, f: Field)
    requires c in cards && c.id != "" && forall d :: d in cards && d.id == c.id ==> d == c
    ensures c.id in UpsertAll(cards).byId && TextOf(UpsertAll(cards).byId[c.id], f) == TextOf(c, f)
  {
    IdIsThere(cards, c);
    MergedTextIsLast(cards, c.id, f);
    AgreedText(cards, c.id, f, TextOf(c, f));
  }

  // ---------------------------------------------------------------------------------------------------------------
  // No result is lost
  // ---------------------------------------------------------------------------------------------------------------

  /** Of several results with one identity the last counts. */
  lemma {:induction false} LastResultCounts(earlier: seq<Noted>, r: Noted, later: seq<Noted>)
    requires r.id != "" && forall q :: q in later ==> q.id != r.id
    ensures var x := NoteAll(earlier + [r] + later); r.id in x.byId && x.byId[r.id] == r
  {
    var all := earlier + [r] + later;
    if later == [] {
      assert all[..|all| - 1] == earlier;
    } else {
      assert all[..|all| - 1] == earlier + [r] + later[..|later| - 1];
      LastResultCounts(earlier, r, later[..|later| - 1]);
    }
  }

  lemma {:induction false} CarrierCardsCarry(s: Session, x: Index, n: nat)
    requires n <= |s.messages|
    ensures forall c :: c in CarrierCards(s, x, n) && c.id in x.byId ==>
      c.output == x.byId[c.id].output && (x.byId[c.id].failed ==> c.status.Error?)
  {
    if n > 0 {
      CarrierCardsCarry(s, x, n - 1);
    }
  }

  lemma {:induction false} UnmatchedCardsAre(x: Index, ids: seq<string>, answered: set<string>)
    requires forall id :: id in ids ==> id in x.byId
    ensures forall c :: c in UnmatchedCards(x, ids, answered) ==>
      c.id in x.byId && c.id in ids && c.id !in answered && c == ResultCard(c.id, x.byId[c.id])
    ensures forall id :: id in ids && id !in answered ==> id in IdsOf(UnmatchedCards(x, ids, answered))
  {
    if ids != [] {
      var rest, id := ids[..|ids| - 1], ids[|ids| - 1];
      assert ids == rest + [id];
      UnmatchedCardsAre(x, rest, answered);
      if id !in answered {
        IdsOfAppend(UnmatchedCards(x, rest, answered), ResultCard(id, x.byId[id]));
      }
    }
  }

  lemma IdsOfSum(a: seq<Card>, b: seq<Card>)
    ensures IdsOf(a + b) == IdsOf(a) + IdsOf(b)
  {
    assert forall c :: c in a + b <==> c in a || c in b;
  }

  lemma ResultHasCard(s: Session, id: string)
    requires id in IndexOf(s).byId
    ensures id in IdsOf(AllCards(s))
  {
    var x := IndexOf(s);
    IndexIsSound(s, x);
    NoteAllIs(Notes(s, |s.messages|));
    UnmatchedCardsAre(x, x.ids, IdsOf(EarlierCards(s)));
    IdsOfSum(EarlierCards(s), UnmatchedCards(x, x.ids, IdsOf(EarlierCards(s))));
  }

  lemma {:induction false} LastTextSum(a: seq<Card>, b: seq<Card>, id: string, f: Field)
    ensures LastText(a + b, id, f) == if LastText(b, id, f) != "" then LastText(b, id, f) else LastText(a, id, f)
  {
    if b == [] {
      assert a + b == a;
    } else {
      assert (a + b)[..|a + b| - 1] == a + b[..|b| - 1];
      LastTextSum(a, b[..|b| - 1], id, f);
    }
  }

  // The last output that sidecars and results without an identity bring for an identity.
  function LaterOutput(s: Session, id: string): string {
    var x := IndexOf(s);
    IndexIsSound(s, x);
    LastText(SidecarCards(s, x, |s.sidecars|) + OrphanCards(s, x.orphans), id, Output)
  }

  // What the card of a result's identity shows. A later output replaces the result's; without one the result is shown
  // by the call that a message carries, or alone if nothing else has its identity. A sidecar whose own output became
  // empty hides it.
  function ShownOutput(s: Session, id: string): string
    requires id in IndexOf(s).byId
  {
    var x, later := IndexOf(s), LaterOutput(s, id);
    if later != "" then later
    else if id in IdsOf(CarrierCards(s, x, |s.messages|)) || id !in IdsOf(EarlierCards(s)) then x.byId[id].output
    else ""
  }

  lemma EarlierText(s: Session, id: string)
    requires id in IndexOf(s).byId
    ensures LastText(EarlierCards(s), id, Output) ==
      if LaterOutput(s, id) != "" then LaterOutput(s, id)
      else if id in IdsOf(CarrierCards(s, IndexOf(s), |s.messages|)) then IndexOf(s).byId[id].output else ""
  {
    var x := IndexOf(s);
    IndexIsSound(s, x);
    var carriers, sidecars := CarrierCards(s, x, |s.messages|), SidecarCards(s, x, |s.sidecars|);
    var orphans := OrphanCards(s, x.orphans);
    CarrierCardsCarry(s, x, |s.messages|);
    if id in IdsOf(carriers) {
      AgreedText(carriers, id, Output, x.byId[id].output);
    } else {
      NoText(carriers, id, Output);
    }
    Associate(carriers, sidecars, orphans);
    LastTextSum(carriers, sidecars + orphans, id, Output);
  }

  lemma UnmatchedText(x: Index, answered: set<string>, id: string)
    requires forall i :: i in x.ids ==> i in x.byId
    requires id in x.ids
    ensures LastText(UnmatchedCards(x, x.ids, answered), id, Output) == if id in answered then "" else x.byId[id].output
  {
    var cards := UnmatchedCards(x, x.ids, answered);
    if id in answered {
      UnmatchedIsNew(x, answered, id);
      NoText(cards, id, Output);
    } else {
      UnmatchedShows(x, answered, id);
      AgreedText(cards, id, Output, x.byId[id].output);
    }
  }

  lemma UnmatchedIsNew(x: Index, answered: set<string>, id: string)
    requires forall i :: i in x.ids ==> i in x.byId
    requires id in answered
    ensures id !in IdsOf(UnmatchedCards(x, x.ids, answered))
  {
    UnmatchedCardsAre(x, x.ids, answered);
  }

  lemma UnmatchedShows(x: Index, answered: set<string>, id: string)
    requires forall i :: i in x.ids ==> i in x.byId
    requires id in x.ids && id !in answered
    ensures id in IdsOf(UnmatchedCards(x, x.ids, answered))
    ensures forall c :: c in UnmatchedCards(x, x.ids, answered) && c.id == id ==> c.output == x.byId[id].output
  {
    UnmatchedCardsAre(x, x.ids, answered);
  }

  lemma OutputOfBoth(earlier: seq<Card>, unmatched: seq<Card>, id: string, own: string)
    requires LastText(unmatched, id, Output) == if id in IdsOf(earlier) then "" else own
    ensures LastText(earlier + unmatched, id, Output) ==
      if id in IdsOf(earlier) then LastText(earlier, id, Output) else own
  {
    LastTextSum(earlier, unmatched, id, Output);
    if id !in IdsOf(earlier) {
      NoText(earlier, id, Output);
    }
  }

  lemma LaterIsEarlier(s: Session, id: string)
    ensures LaterOutput(s, id) != "" ==> id in IdsOf(EarlierCards(s))
    ensures id in IdsOf(CarrierCards(s, IndexOf(s), |s.messages|)) ==> id in IdsOf(EarlierCards(s))
  {
    var x := IndexOf(s);
    IndexIsSound(s, x);
    var later := SidecarCards(s, x, |s.sidecars|) + OrphanCards(s, x.orphans);
    Associate(CarrierCards(s, x, |s.messages|), SidecarCards(s, x, |s.sidecars|), OrphanCards(s, x.orphans));
    IdsOfSum(CarrierCards(s, x, |s.messages|), later);
    if id !in IdsOf(later) {
      NoText(later, id, Output);
    }
  }

  lemma AllText(s: Session, id: string)
    requires id in IndexOf(s).byId
    ensures LastText(AllCards(s), id, Output) ==
      if id in IdsOf(EarlierCards(s)) then LastText(EarlierCards(s), id, Output) else IndexOf(s).byId[id].output
  {
    var x := IndexOf(s);
    IndexIsSound(s, x);
    NoteAllIs(Notes(s, |s.messages|));
    UnmatchedText(x, IdsOf(EarlierCards(s)), id);
    OutputOfBoth(EarlierCards(s), UnmatchedCards(x, x.ids, IdsOf(EarlierCards(s))), id, x.byId[id].output);
  }

  lemma ShownOutputIsFinal(s: Session, id: string)
    requires id in IndexOf(s).byId
    ensures id in UpsertAll(AllCards(s)).byId && UpsertAll(AllCards(s)).byId[id].output == ShownOutput(s, id)
  {
    IndexedIsNamed(s, id);
    ResultHasCard(s, id);
    MergedTextIsLast(AllCards(s), id, Output);
    ShownIsLast(s, id);
  }

  lemma IndexedIsNamed(s: Session, id: string)
    requires id in IndexOf(s).byId
    ensures id != ""
  {
    NoteAllIs(Notes(s, |s.messages|));
  }

  lemma ShownIsLast(s: Session, id: string)
    requires id in IndexOf(s).byId
    ensures LastText(AllCards(s), id, Output) == ShownOutput(s, id)
  {
    AllText(s, id);
    EarlierText(s, id);
    LaterIsEarlier(s, id);
  }

  // A result is shown if a card with its identity has its output.
  ghost predicate IsShown(s: Session, q: Noted) {
    exists c :: c in AllTools(s) && c.id == q.id && c.output == q.output
  }

  /** Exactly when a result with an identity is shown: if its output is what the calls, the sidecars and the last result
      of that identity amount to. */
  lemma ResultIsShownIff(s: Session, q: Noted)
    requires q in Notes(s, |s.messages|) && q.id != ""
    ensures q.id in IndexOf(s).byId
    ensures IsShown(s, q) <==> q.output == ShownOutput(s, q.id)
  {
    NoteAllIs(Notes(s, |s.messages|));
    ShownOutputIsFinal(s, q.id);
    AllToolsAre(s);
    UpsertAllIs(AllCards(s));
    assert UpsertAll(AllCards(s)).byId[q.id] in AllTools(s);
  }

  /** Of two results with one identity and different outputs at most one is shown. */
  lemma EarlierResultIsLost(s: Session, q: Noted, r: Noted)
    requires q in Notes(s, |s.messages|) && r in Notes(s, |s.messages|)
    requires q.id == r.id != "" && q.output != r.output
    ensures !(IsShown(s, q) && IsShown(s, r))
  {
    ResultIsShownIff(s, q);
    ResultIsShownIff(s, r);
  }

  // One message with two results of the same call.
  const REPEATED := Session("s", 0, [Message("m", OtherRole, "", false, false, "",
                                             [RawResult("a", "", "x", "x", false), RawResult("a", "", "y", "y", false)], [])], [])

  /** The loss is real: the first of two results of one call is shown nowhere. */
  lemma RepeatedResultIsLost()
    ensures Notes(REPEATED, 1) == [Noted("a", "", "x", "x", false, 900, 0), Noted("a", "", "y", "y", false, 900, 0)]
    ensures !IsShown(REPEATED, Noted("a", "", "x", "x", false, 900, 0))
    ensures IsShown(REPEATED, Noted("a", "", "y", "y", false, 900, 0))
  {
    var q, r := Noted("a", "", "x", "x", false, 900, 0), Noted("a", "", "y", "y", false, 900, 0);
    assert Notes(REPEATED, 1) == [] + MessageNotes(REPEATED, 0) == [q, r];
    LastResultCounts([q], r, []);
    assert [q] + [r] + [] == [q, r];
    var x := IndexOf(REPEATED);
    assert [q, r][..1] == [q] && [q][..0] == [];
    assert NoteAll([q]) == Note(NoteAll([]), q) && NoteAll([q, r]) == Note(NoteAll([q]), r);
    assert x == NoteAll([q, r]) && x.orphans == [];
    assert MessageCards(REPEATED, x, 0) == [] && CarrierCards(REPEATED, x, 1) == [];
    assert EarlierCards(REPEATED) == [];
    assert LaterOutput(REPEATED, "a") == "";
    assert ShownOutput(REPEATED, "a") == "y";
    ResultIsShownIff(REPEATED, q);
    ResultIsShownIff(REPEATED, r);
  }

  // One message with a result of a call, and a sidecar of that call with an output of its own, which is empty.
  const EMPTIED := Session("s", 0, [Message("m", OtherRole, "", false, false, "", [RawResult("a", "", "x", "x", false)], [])],
                           [Some(Sidecar(Call("a", "", "", "", false, "", false), -1, Some("")))])

  const RESULT := Noted("a", "", "x", "x", false, 900, 0)

  lemma EmptiedIndex()
    ensures Notes(EMPTIED, 1) == [RESULT] && IndexOf(EMPTIED).orphans == []
  {
    assert MessageNotes(EMPTIED, 0) == [RESULT];
    assert Notes(EMPTIED, 1) == Notes(EMPTIED, 0) + [RESULT];
    NoteNothingElse(RESULT);
  }

  lemma NoteNothingElse(r: Noted)
    requires r.id != ""
    ensures NoteAll([r]).orphans == []
  {
    assert [r][..0] == [];
  }

  lemma EmptiedCards(x: Index)
    requires x.orphans == []
    ensures CarrierCards(EMPTIED, x, 1) == [] && OrphanCards(EMPTIED, x.orphans) == []
    ensures SidecarCards(EMPTIED, x, 1) == [SidecarCard(EMPTIED, x, 0)]
    ensures SidecarCard(EMPTIED, x, 0).id == "a" && SidecarCard(EMPTIED, x, 0).output == ""
  {
    assert MessageCards(EMPTIED, x, 0) == [];
    assert SidecarCards(EMPTIED, x, 1) == SidecarCards(EMPTIED, x, 0) + [SidecarCard(EMPTIED, x, 0)];
  }

  /** So is this loss: a sidecar whose own output became empty hides the only result of its call. */
  lemma EmptiedSidecarHidesResult()
    ensures Notes(EMPTIED, 1) == [RESULT] && !IsShown(EMPTIED, RESULT)
  {
    EmptiedIndex();
    EmptiedCards(IndexOf(EMPTIED));
    OneEmptyCardHides(EMPTIED, RESULT, SidecarCard(EMPTIED, IndexOf(EMPTIED), 0));
  }

  lemma OneEmptyCardHides(s: Session, r: Noted, c: Card)
    requires r in Notes(s, |s.messages|) && r.id != "" && c.id == r.id && c.output == "" && r.output != ""
    requires CarrierCards(s, IndexOf(s), |s.messages|) == [] && IndexOf(s).orphans == []
    requires SidecarCards(s, IndexOf(s), |s.sidecars|) == [c]
    ensures !IsShown(s, r)
  {
    var x := IndexOf(s);
    ResultIsShownIff(s, r);
    assert OrphanCards(s, x.orphans) == [];
    assert EarlierCards(s) == [c] && c in [c];
    assert SidecarCards(s, x, |s.sidecars|) + OrphanCards(s, x.orphans) == [c];
    AgreedText([c], r.id, Output, "");
  }

  // A result without an identity whose generated identity is this one.
  predicate Collides(s: Session, k: nat, id: string)
    requires k < |IndexOf(s).orphans|
  {
    var r := IndexOf(s).orphans[k];
    r.sourceIndex >= 0 && OrphanId(s, r, k) == id
  }

  lemma FailureShows(s: Session, r: Noted, c: Card)
    requires r.id in IndexOf(s).byId && IndexOf(s).byId[r.id] == r && r.failed
    requires forall k :: 0 <= k < |IndexOf(s).orphans| ==> !Collides(s, k, r.id)
    requires c in AllCards(s) && c.id == r.id
    ensures c.status.Error?
  {
    var x := IndexOf(s);
    IndexIsSound(s, x);
    CarrierCardsCarry(s, x, |s.messages|);
    SidecarCardsFail(s, x, |s.sidecars|);
    UnmatchedCardsAre(x, x.ids, IdsOf(EarlierCards(s)));
    if c in OrphanCards(s, x.orphans) {
      var k :| 0 <= k < |x.orphans| && OrphanCards(s, x.orphans)[k] == c;
      assert Collides(s, k, r.id);
    }
  }

  lemma {:induction false} SidecarCardsFail(s: Session, x: Index, n: nat)
    requires n <= |s.sidecars|
    ensures forall c :: c in SidecarCards(s, x, n) && c.id in x.byId && x.byId[c.id].failed ==> c.status.Error?
  {
    if n > 0 {
      SidecarCardsFail(s, x, n - 1);
    }
  }

  /** The last result of an identity has a card with that identity, whatever follows it. A failure shows there exactly
      if no result without an identity, and without a failure, happens to get that identity. */
  lemma ResultIsKept(s: Session, earlier: seq<Noted>, r: Noted, later: seq<Noted>)
    requires Notes(s, |s.messages|) == earlier + [r] + later
    requires r.id != "" && forall q :: q in later ==> q.id != r.id
    ensures r.id in IndexOf(s).byId && IndexOf(s).byId[r.id] == r && r.id in UpsertAll(AllCards(s)).byId
    ensures r.failed ==>
      (UpsertAll(AllCards(s)).byId[r.id].status.Error? <==>
         forall k :: 0 <= k < |IndexOf(s).orphans| && Collides(s, k, r.id) ==> IndexOf(s).orphans[k].failed)
  {
    LastResultCounts(earlier, r, later);
    ResultHasCard(s, r.id);
    MergedPlaceIsLast(AllCards(s), r.id);
    if k :| 0 <= k < |IndexOf(s).orphans| && Collides(s, k, r.id) {
      OrphanIsKept(s, k);
      forall i | 0 <= i < |IndexOf(s).orphans| && Collides(s, i, r.id)
        ensures i == k
      {
        if i != k {
          OrphanIdsDiffer(s, IndexOf(s).orphans[i], i, IndexOf(s).orphans[k], k);
        }
      }
    } else if r.failed {
      FailureShows(s, r, LastCard(AllCards(s), r.id).value);
    }
  }

  // A failed result whose identity is the one generated for the result after it, which has none.
  const CLASHING := Session("s", 0, [Message("m", OtherRole, "", false, false, "",
                                             [RawResult(CLASH, "", "x", "x", true), RawResult("", "", "y", "y", false)],
                                             [])], [])
  const CLASH := "remote-orphan-tool-" + "s" + "-" + "0" + "-" + "0"

  /** The collision is real: the failure does not show. */
  lemma ClashHidesFailure()
    ensures Noted(CLASH, "", "x", "x", true, 900, 0) in Notes(CLASHING, 1)
    ensures CLASH in UpsertAll(AllCards(CLASHING)).byId && !UpsertAll(AllCards(CLASHING)).byId[CLASH].status.Error?
  {
    var r, o := Noted(CLASH, "", "x", "x", true, 900, 0), Noted("", "", "y", "y", false, 900, 0);
    assert Notes(CLASHING, 1) == [] + MessageNotes(CLASHING, 0) == [r, o] == [] + [r] + [o];
    var x := IndexOf(CLASHING);
    assert [r, o][..1] == [r] && [r][..0] == [];
    assert NoteAll([r]) == Note(NoteAll([]), r) && NoteAll([r, o]) == Note(NoteAll([r]), o);
    assert x == NoteAll([r, o]) && x.orphans == [o];
    assert Decimal(0) == "0" && OrphanId(CLASHING, o, 0) == CLASH;
    assert Collides(CLASHING, 0, r.id);
    ResultIsKept(CLASHING, [], r, [o]);
  }

  lemma {:induction false} LastCardWins(a: seq<Card>, c: Card, b: seq<Card>, f: Field)
    requires forall d :: d in b ==> d.id != c.id
    ensures LastCard(a + [c] + b, c.id) == Some(c)
    ensures TextOf(c, f) != "" ==> LastText(a + [c] + b, c.id, f) == TextOf(c, f)
  {
    var all := a + [c] + b;
    if b == [] {
      assert all[|all| - 1] == c;
    } else {
      assert all[..|all| - 1] == a + [c] + b[..|b| - 1] && all[|all| - 1] == b[|b| - 1];
      LastCardWins(a, c, b[..|b| - 1], f);
    }
  }

  ghost predicate DashFree(text: string) {
    forall i :: 0 <= i < |text| ==> text[i] != '-'
  }

  lemma {:induction false} DecimalIs(n: nat)
    ensures Decimal(n) != "" && DashFree(Decimal(n))
    ensures forall m: nat :: m != n ==> Decimal(m) != Decimal(n)
  {
    if n >= 10 {
      DecimalIs(n / 10);
    }
    forall m: nat | m != n
      ensures Decimal(m) != Decimal(n)
    {
      DecimalDiffers(m, n);
    }
  }

  lemma {:induction false} DecimalDiffers(m: nat, n: nat)
    requires m != n
    ensures Decimal(m) != Decimal(n)
  {
    var p, q := Decimal(m), Decimal(n);
    LastDigit(m);
    LastDigit(n);
    if m >= 10 && n >= 10 && m % 10 == n % 10 {
      DecimalDiffers(m / 10, n / 10);
      assert p[..|p| - 1] == Decimal(m / 10) && q[..|q| - 1] == Decimal(n / 10);
    }
  }

  lemma LastDigit(n: nat)
    ensures |Decimal(n)| >= 1 && Decimal(n)[|Decimal(n)| - 1] == '0' + (n % 10) as char
    ensures |Decimal(n)| == 1 <==> n < 10
  {
    if n >= 10 {
      assert |Decimal(n / 10)| >= 1;
    }
  }

  lemma SuffixesDiffer(a: string, b: string, c: string, d: string)
    requires DashFree(b) && DashFree(d) && b != d
    ensures a + "-" + b != c + "-" + d
  {
    var p, q := a + "-" + b, c + "-" + d;
    assert p[|p| - |b|..] == b && q[|q| - |d|..] == d;
    assert p[|p| - |b| - 1] == '-' && q[|q| - |d| - 1] == '-';
    if |b| < |d| {
      assert q[|q| - |b| - 1] == d[|d| - |b| - 1];
    } else if |d| < |b| {
      assert p[|p| - |d| - 1] == b[|b| - |d| - 1];
    }
  }

  /** Results without an identity never share a card. */
  lemma OrphanIdsDiffer(s: Session, q: Noted, i: nat, r: Noted, j: nat)
    requires q.sourceIndex >= 0 && r.sourceIndex >= 0 && i != j
    ensures OrphanId(s, q, i) != OrphanId(s, r, j)
  {
    DecimalIs(i);
    DecimalIs(j);
    SuffixesDiffer("remote-orphan-tool-" + s.id + "-" + Decimal(q.sourceIndex), Decimal(i),
                   "remote-orphan-tool-" + s.id + "-" + Decimal(r.sourceIndex), Decimal(j));
  }

  // The cards of the passes before and after the card of an orphan.
  function CardsBefore(s: Session, k: nat): seq<Card>
    requires k < |IndexOf(s).orphans|
  {
    var x := IndexOf(s);
    IndexIsSound(s, x);
    CarrierCards(s, x, |s.messages|) + SidecarCards(s, x, |s.sidecars|) + OrphanCards(s, x.orphans)[..k]
  }

  function CardsAfter(s: Session, k: nat): seq<Card>
    requires k < |IndexOf(s).orphans|
  {
    var x := IndexOf(s);
    IndexIsSound(s, x);
    OrphanCards(s, x.orphans)[k + 1..] + UnmatchedCards(x, x.ids, IdsOf(EarlierCards(s)))
  }

  lemma OrphanSplits(s: Session, k: nat)
    requires k < |IndexOf(s).orphans| && IndexOf(s).orphans[k].sourceIndex >= 0
    ensures var r := IndexOf(s).orphans[k];
      AllCards(s) == CardsBefore(s, k) + [ResultCard(OrphanId(s, r, k), r)] + CardsAfter(s, k)
  {
    var x := IndexOf(s);
    IndexIsSound(s, x);
    Regroup(CarrierCards(s, x, |s.messages|) + SidecarCards(s, x, |s.sidecars|), OrphanCards(s, x.orphans), k,
            UnmatchedCards(x, x.ids, IdsOf(EarlierCards(s))));
  }

  lemma Regroup(a: seq<Card>, b: seq<Card>, k: nat, c: seq<Card>)
    requires k < |b|
    ensures (a + b) + c == (a + b[..k]) + [b[k]] + (b[k + 1..] + c)
  {
    assert b == b[..k] + [b[k]] + b[k + 1..];
  }

  lemma LaterCardsDiffer(s: Session, k: nat, d: Card)
    requires k < |IndexOf(s).orphans| && IndexOf(s).orphans[k].sourceIndex >= 0 && d in CardsAfter(s, k)
    ensures d.id != OrphanId(s, IndexOf(s).orphans[k], k)
  {
    var x := IndexOf(s);
    IndexIsSound(s, x);
    var orphans := OrphanCards(s, x.orphans);
    if d in orphans[k + 1..] {
      var i :| k < i < |orphans| && orphans[i] == d;
      OrphanIdsDiffer(s, x.orphans[i], i, x.orphans[k], k);
    } else {
      UnmatchedCardsAre(x, x.ids, IdsOf(EarlierCards(s)));
      assert orphans[k] in EarlierCards(s);
      IdIsThere(EarlierCards(s), orphans[k]);
    }
  }

  /** Every result without an identity has a card of its own that shows it, even where another card has its identity. */
  lemma OrphanIsKept(s: Session, k: nat)
    requires k < |IndexOf(s).orphans| && IndexOf(s).orphans[k].sourceIndex >= 0
    ensures var r := IndexOf(s).orphans[k];
      var id := OrphanId(s, r, k);
      && id in UpsertAll(AllCards(s)).byId
      && (var card := UpsertAll(AllCards(s)).byId[id];
          && (r.output != "" ==> card.output == r.output)
          && (card.status.Error? <==> r.failed)
          && card.order == r.order && card.sourceIndex == r.sourceIndex)
  {
    var r := IndexOf(s).orphans[k];
    var id := OrphanId(s, r, k);
    var card := ResultCard(id, r);
    OrphanSplits(s, k);
    forall d | d in CardsAfter(s, k)
      ensures d.id != id
    {
      LaterCardsDiffer(s, k, d);
    }
    ShownByLast(AllCards(s), CardsBefore(s, k), card, CardsAfter(s, k));
  }

  lemma ShownByLast(all: seq<Card>, a: seq<Card>, c: Card, b: seq<Card>)
    requires all == a + [c] + b && c.id != "" && forall d :: d in b ==> d.id != c.id
    ensures c.id in UpsertAll(all).byId
    ensures var card := UpsertAll(all).byId[c.id];
      && (c.output != "" ==> card.output == c.output)
      && card.status == c.status && card.order == c.order && card.sourceIndex == c.sourceIndex
  {
    LastCardWins(a, c, b, Output);
    assert all[|a|] == c;
    IdIsThere(all, c);
    MergedTextIsLast(all, c.id, Output);
    MergedPlaceIsLast(all, c.id);
  }

  lemma IdIsThere(cards: seq<Card>, c: Card)
    requires c in cards
    ensures c.id in IdsOf(cards)
  {
  }

  // ---------------------------------------------------------------------------------------------------------------
  // Order and limits
  // ---------------------------------------------------------------------------------------------------------------

  ghost predicate Ordered(cards: seq<Card>) {
    forall i, j :: 0 <= i < j < |cards| ==> Before(cards[i], cards[j])
  }

  lemma BeforeTrans(a: Card, b: Card, c: Card)
    requires Before(a, b) && Before(b, c)
    ensures Before(a, c)
  {
    if a.order == b.order && b.order == c.order {
      TextBeforeTrans(a.id, b.id, c.id);
    }
  }

  lemma OrderedCons(c: Card, rest: seq<Card>)
    requires Ordered(rest) && (rest == [] || Before(c, rest[0]))
    ensures Ordered([c] + rest)
  {
    forall j | 0 <= j < |rest|
      ensures Before(c, rest[j])
    {
      if j > 0 {
        BeforeTrans(c, rest[0], rest[j]);
      }
    }
  }

  lemma {:induction false} InsertIs(c: Card, sorted: seq<Card>)
    requires Ordered(sorted) && forall d :: d in sorted ==> d.id != c.id
    ensures forall d :: d in Insert(c, sorted) <==> d == c || d in sorted
    ensures Ordered(Insert(c, sorted)) && Insert(c, sorted) != []
    ensures Insert(c, sorted)[0] == c || (sorted != [] && Insert(c, sorted)[0] == sorted[0])
  {
    if sorted != [] && Before(sorted[0], c) {
      assert forall d :: d in sorted <==> d == sorted[0] || d in sorted[1..];
      InsertIs(c, sorted[1..]);
      OrderedCons(sorted[0], Insert(c, sorted[1..]));
    } else {
      if sorted != [] {
        TextBeforeIsTotal(c.id, sorted[0].id);
      }
      OrderedCons(c, sorted);
    }
  }

  ghost predicate DistinctCards(cards: seq<Card>) {
    forall i, j :: 0 <= i < j < |cards| ==> cards[i].id != cards[j].id
  }

  lemma {:induction false} SortIs(cards: seq<Card>)
    requires DistinctCards(cards)
    ensures Ordered(Sort(cards))
    ensures forall c :: c in Sort(cards) <==> c in cards
  {
    if cards != [] {
      SortIs(cards[1..]);
      assert forall c :: c in cards <==> c == cards[0] || c in cards[1..];
      forall c | c in Sort(cards[1..])
        ensures c.id != cards[0].id
      {
        var i :| 0 <= i < |cards| - 1 && cards[1..][i] == c;
        assert cards[i + 1] == c;
      }
      InsertIs(cards[0], Sort(cards[1..]));
    }
  }

  lemma {:induction false} NotBelowIs(cards: seq<Card>, floor: int)
    requires Ordered(cards)
    ensures Ordered(NotBelow(cards, floor))
    ensures forall c :: c in NotBelow(cards, floor) <==> c in cards && c.order >= floor
  {
    if cards != [] {
      NotBelowIs(cards[1..], floor);
      var rest := NotBelow(cards[1..], floor);
      assert forall c :: c in cards <==> c == cards[0] || c in cards[1..];
      if cards[0].order >= floor {
        if rest != [] {
          HeadIsFirst(cards, rest[0]);
        }
        OrderedCons(cards[0], rest);
      } else {
        assert NotBelow(cards, floor) == rest;
      }
    }
  }

  lemma HeadIsFirst(cards: seq<Card>, c: Card)
    requires Ordered(cards) && cards != [] && c in cards[1..]
    ensures Before(cards[0], c)
  {
  }

  function AllTools(s: Session): seq<Card> {
    OrderIsUnique(AllCards(s));
    Listed(UpsertAll(AllCards(s)))
  }

  function Project(s: Session): Projection {
    Limited(Rows(s, |s.messages|), Sort(AllTools(s)))
  }

  /** Before any limit the cards are the merged ones, one for each identity. */
  lemma AllToolsAre(s: Session)
    ensures DistinctCards(AllTools(s))
    ensures forall c :: c in AllTools(s) <==>
      c.id in UpsertAll(AllCards(s)).byId && c == UpsertAll(AllCards(s)).byId[c.id]
    ensures IdsOf(AllTools(s)) == IdsOf(AllCards(s)) - {""}
  {
    OrderIsUnique(AllCards(s));
    UpsertAllIs(AllCards(s));
    ListedIs(UpsertAll(AllCards(s)));
    forall id
      ensures id in IdsOf(AllTools(s)) <==> id in UpsertAll(AllCards(s)).byId
    {
      if id in UpsertAll(AllCards(s)).byId {
        IdIsThere(AllTools(s), UpsertAll(AllCards(s)).byId[id]);
      }
    }
  }

  lemma ListedIs(t: Tools)
    requires OrderIsSound(t) && IsKeyed(t)
    ensures DistinctCards(Listed(t))
    ensures forall c :: c in Listed(t) <==> c.id in t.byId && c == t.byId[c.id]
  {
    var tools := Listed(t);
    forall i | 0 <= i < |tools|
      ensures tools[i].id == t.order[i] && t.order[i] in t.byId && tools[i] == t.byId[t.order[i]]
    {
      assert t.order[i] in t.order;
    }
    forall id | id in t.byId
      ensures t.byId[id] in tools
    {
      var i :| 0 <= i < |t.order| && t.order[i] == id;
      assert tools[i] == t.byId[id];
    }
  }

  ghost predicate Ascending(rows: seq<Row>) {
    forall i, j :: 0 <= i < j < |rows| ==> rows[i].order < rows[j].order
  }

  /** The rows are the shown messages, and already in order. */
  lemma {:induction false} RowsAre(s: Session, n: nat)
    requires n <= |s.messages|
    ensures Ascending(Rows(s, n))
    ensures forall r :: r in Rows(s, n) ==> r.order < (s.offset + n) * 1000
  {
    if n > 0 {
      RowsAre(s, n - 1);
      if Shown(s.messages[n - 1]) {
        AppendRow(Rows(s, n - 1), RowOf(s, n - 1));
      }
    }
  }

  lemma AppendRow(rows: seq<Row>, r: Row)
    requires Ascending(rows) && forall q :: q in rows ==> q.order < r.order
    ensures Ascending(rows + [r])
  {
  }

  lemma {:induction false} ShownIsRow(s: Session, n: nat, i: nat)
    requires i < n <= |s.messages| && Shown(s.messages[i])
    ensures RowOf(s, i) in Rows(s, n)
  {
    if i < n - 1 {
      ShownIsRow(s, n - 1, i);
    } else {
      assert Rows(s, n)[|Rows(s, n)| - 1] == RowOf(s, i);
    }
  }

  lemma {:induction false} RowsBySource(s: Session, n: nat)
    requires n <= |s.messages|
    ensures forall r :: r in Rows(s, n) ==>
      exists i :: 0 <= i < n && Shown(s.messages[i]) && r == RowOf(s, i) && r.sourceIndex == s.offset + i
  {
    if n > 0 {
      RowsBySource(s, n - 1);
      forall r | r in Rows(s, n)
        ensures exists i :: 0 <= i < n && Shown(s.messages[i]) && r == RowOf(s, i) && r.sourceIndex == s.offset + i
      {
        if r in Rows(s, n - 1) {
          var i :| 0 <= i < n - 1 && Shown(s.messages[i]) && r == RowOf(s, i) && r.sourceIndex == s.offset + i;
        }
      }
    }
  }

  /** Exactly which messages are rows, and what each row says of its message. */
  lemma MessageIsRowIff(s: Session, i: nat)
    requires i < |s.messages|
    ensures var m := s.messages[i];
      (exists r :: r in Rows(s, |s.messages|) && r.sourceIndex == s.offset + i) <==>
        m.role in {User, Assistant, System} && (m.text != "" || m.streaming || m.pending || m.error != "")
    ensures forall r :: r in Rows(s, |s.messages|) && r.sourceIndex == s.offset + i ==>
      var m := s.messages[i];
      && r.role == m.role && r.text == m.text && r.streaming == m.streaming && r.pending == m.pending
      && r.error == (if |m.error| <= 500 then m.error else m.error[..500])
      && r.order == (s.offset + i) * 1000
      && r.id == if m.id != "" then m.id else "remote-" + s.id + "-" + Decimal(s.offset + i)
  {
    RowsBySource(s, |s.messages|);
    if Shown(s.messages[i]) {
      ShownIsRow(s, |s.messages|, i);
      assert RowOf(s, i) in Rows(s, |s.messages|) && RowOf(s, i).sourceIndex == s.offset + i;
    }
    forall r | r in Rows(s, |s.messages|) && r.sourceIndex == s.offset + i
      ensures Shown(s.messages[i]) && r == RowOf(s, i)
    {
      var j :| 0 <= j < |s.messages| && Shown(s.messages[j]) && r == RowOf(s, j) && r.sourceIndex == s.offset + j;
    }
  }

  /** The projection shows the newest rows and cards in order: what it drops is older than everything it keeps, and a
      card goes only below the oldest kept row or beyond the limit. */
  lemma ProjectionIsNewest(s: Session)
    ensures var p := Project(s);
      && |p.rows| <= MAX_MESSAGES && |p.tools| <= MAX_TOOLS && Ascending(p.rows) && Ordered(p.tools)
      && (forall r :: r in p.rows ==> r in Rows(s, |s.messages|))
      && (forall r :: r in Rows(s, |s.messages|) && r !in p.rows ==> |p.rows| == MAX_MESSAGES && r.order < p.rows[0].order)
      && (forall c :: c in p.tools ==> c in AllTools(s))
      && (forall c, r :: c in p.tools && r in Rows(s, |s.messages|) && r !in p.rows ==> c.order >= p.rows[0].order)
      && (forall c :: c in AllTools(s) && c !in p.tools ==>
            || (|p.rows| == MAX_MESSAGES && c.order < p.rows[0].order)
            || (|p.tools| == MAX_TOOLS && Before(c, p.tools[0])))
  {
    var rows, tools := Rows(s, |s.messages|), Sort(AllTools(s));
    RowsAre(s, |s.messages|);
    AllToolsAre(s);
    SortIs(AllTools(s));
    LastRows(rows);
    if |rows| > MAX_MESSAGES {
      NotBelowIs(tools, Last(rows, MAX_MESSAGES)[0].order);
      LastTools(NotBelow(tools, Last(rows, MAX_MESSAGES)[0].order));
    } else {
      LastTools(tools);
    }
  }

  lemma LastRows(rows: seq<Row>)
    requires Ascending(rows)
    ensures var kept := Last(rows, MAX_MESSAGES);
      && |kept| <= MAX_MESSAGES && Ascending(kept) && (forall r :: r in kept ==> r in rows)
      && (forall r :: r in rows && r !in kept ==> |kept| == MAX_MESSAGES && r.order < kept[0].order)
  {
    var kept := Last(rows, MAX_MESSAGES);
    assert rows == rows[..|rows| - |kept|] + kept;
  }

  lemma LastTools(tools: seq<Card>)
    requires Ordered(tools)
    ensures var kept := Last(tools, MAX_TOOLS);
      && |kept| <= MAX_TOOLS && Ordered(kept) && (forall c :: c in kept ==> c in tools)
      && (forall c :: c in tools && c !in kept ==> |kept| == MAX_TOOLS && Before(c, kept[0]))
  {
    var kept := Last(tools, MAX_TOOLS);
    assert tools == tools[..|tools| - |kept|] + kept;
  }

  // ---------------------------------------------------------------------------------------------------------------
  // The passes
  // ---------------------------------------------------------------------------------------------------------------

  lemma UpsertNext(cards: seq<Card>, c: Card)
    ensures UpsertAll(cards + [c]) == Upsert(UpsertAll(cards), c)
  {
    assert (cards + [c])[..|cards|] == cards;
  }

  lemma NoteNext(earlier: seq<Noted>, notes: seq<Noted>, k: nat)
    requires k < |notes|
    ensures NoteAll(earlier + notes[..k + 1]) == Note(NoteAll(earlier + notes[..k]), notes[k])
  {
    var all := earlier + notes[..k + 1];
    assert all[..|all| - 1] == earlier + notes[..k];
  }

  method CollectResults(s: Session) returns (x: Index)
    ensures x == IndexOf(s)
  {
    x := Index(map[], [], []);
    for i := 0 to |s.messages|
      invariant x == NoteAll(Notes(s, i))
    {
      x := NoteMessage(s, i, x);
    }
  }

  method NoteMessage(s: Session, i: nat, before: Index) returns (x: Index)
    requires i < |s.messages| && before == NoteAll(Notes(s, i))
    ensures x == NoteAll(Notes(s, i + 1))
  {
    x := before;
    var results := s.messages[i].results;
    ghost var earlier, notes := Notes(s, i), MessageNotes(s, i);
    assert earlier + notes[..0] == earlier;
    for k := 0 to |results|
      invariant x == NoteAll(earlier + notes[..k])
    {
      var r := NotedAt(s, i, results[k]);
      NoteNext(earlier, notes, k);
      if r.id == "" {
        x := x.(orphans := x.orphans + [r]);
      } else {
        if r.id !in x.byId {
          x := x.(ids := x.ids + [r.id]);
        }
        x := x.(byId := x.byId[r.id := r]);
      }
    }
    assert notes[..|results|] == notes;
  }

  // While the k-th result is looked up, only earlier passes can have answered it.
  lemma UnmatchedKnown(x: Index, k: nat, before: seq<Card>)
    requires k < |x.ids| && forall id :: id in x.ids ==> id in x.byId && id != ""
    requires forall i, j :: 0 <= i < j < |x.ids| ==> x.ids[i] != x.ids[j]
    ensures var cards := UnmatchedCards(x, x.ids[..k], IdsOf(before));
      x.ids[k] in UpsertAll(before + cards).byId <==> x.ids[k] in IdsOf(before)
  {
    var cards := UnmatchedCards(x, x.ids[..k], IdsOf(before));
    UnmatchedCardsAre(x, x.ids[..k], IdsOf(before));
    assert x.ids[k] !in x.ids[..k];
    assert x.ids[k] !in IdsOf(cards);
    IdsOfSum(before, cards);
    UpsertAllIs(before + cards);
  }

  lemma UnmatchedStep(x: Index, k: nat, answered: set<string>, before: seq<Card>)
    requires k < |x.ids| && forall id :: id in x.ids ==> id in x.byId
    ensures var id := x.ids[k];
      before + UnmatchedCards(x, x.ids[..k + 1], answered)
      == before + UnmatchedCards(x, x.ids[..k], answered) + if id in answered then [] else [ResultCard(id, x.byId[id])]
  {
    var ids, id := x.ids[..k], x.ids[k];
    assert x.ids[..k + 1] == ids + [id];
    UnmatchedLast(x, ids, id, answered);
    Associate(before, UnmatchedCards(x, ids, answered), if id in answered then [] else [ResultCard(id, x.byId[id])]);
  }

  lemma AppendNothing(a: seq<Card>)
    ensures a + [] == a
  {
  }

  lemma Associate(a: seq<Card>, b: seq<Card>, c: seq<Card>)
    ensures a + (b + c) == a + b + c
  {
  }

  lemma UnmatchedLast(x: Index, ids: seq<string>, id: string, answered: set<string>)
    requires forall j :: j in ids + [id] ==> j in x.byId
    ensures UnmatchedCards(x, ids + [id], answered)
      == UnmatchedCards(x, ids, answered) + if id in answered then [] else [ResultCard(id, x.byId[id])]
  {
    assert (ids + [id])[..|ids|] == ids;
  }

  class CardTable {
    var byId: map<string, Card>
    var order: seq<string>

    constructor ()
      ensures Contents() == UpsertAll([])
    {
      byId, order := map[], [];
    }

    function Contents(): Tools
      reads this
    {
      Tools(byId, order)
    }

    // A further card of an identity replaces the texts that it has, and the status and the place.
    method UpsertTool(c: Card, ghost cards: seq<Card>)
      requires Contents() == UpsertAll(cards)
      modifies this
      ensures Contents() == UpsertAll(cards + [c])
    {
      UpsertNext(cards, c);
      if c.id == "" {
        return;
      }
      if c.id !in byId {
        byId, order := byId[c.id := c], order + [c.id];
        return;
      }
      var merged := byId[c.id].(status := c.status, order := c.order, sourceIndex := c.sourceIndex);
      if c.name != "" {
        merged := merged.(name := c.name);
      }
      if c.title != "" {
        merged := merged.(title := c.title);
      }
      if c.input != "" {
        merged := merged.(input := c.input);
      }
      if c.output != "" {
        merged := merged.(output := c.output);
      }
      if c.error != "" {
        merged := merged.(error := c.error);
      }
      byId := byId[c.id := merged];
    }

    method AddCarriers(s: Session, x: Index) returns (rows: seq<Row>)
      requires Contents() == UpsertAll([])
      modifies this
      ensures Contents() == UpsertAll(CarrierCards(s, x, |s.messages|)) && rows == Rows(s, |s.messages|)
    {
      rows := [];
      for i := 0 to |s.messages|
        invariant Contents() == UpsertAll(CarrierCards(s, x, i)) && rows == Rows(s, i)
      {
        AddCarrier(s, x, i);
        rows := AddRow(s, i, rows);
      }
    }

    static method AddRow(s: Session, i: nat, before: seq<Row>) returns (rows: seq<Row>)
      requires i < |s.messages| && before == Rows(s, i)
      ensures rows == Rows(s, i + 1)
    {
      rows := if Shown(s.messages[i]) then before + [RowOf(s, i)] else before;
    }

    method AddCarrier(s: Session, x: Index, i: nat)
      requires i < |s.messages| && Contents() == UpsertAll(CarrierCards(s, x, i))
      modifies this
      ensures Contents() == UpsertAll(CarrierCards(s, x, i + 1))
    {
      AddAll(MessageCards(s, x, i), CarrierCards(s, x, i));
    }

    method AddAll(cards: seq<Card>, ghost before: seq<Card>)
      requires Contents() == UpsertAll(before)
      modifies this
      ensures Contents() == UpsertAll(before + cards)
    {
      assert before + cards[..0] == before;
      for k := 0 to |cards|
        invariant Contents() == UpsertAll(before + cards[..k])
      {
        UpsertTool(cards[k], before + cards[..k]);
        assert before + cards[..k + 1] == before + cards[..k] + [cards[k]];
      }
      assert cards[..|cards|] == cards;
    }

    method AddSidecars(s: Session, x: Index, ghost before: seq<Card>)
      requires Contents() == UpsertAll(before)
      modifies this
      ensures Contents() == UpsertAll(before + SidecarCards(s, x, |s.sidecars|))
    {
      AppendNothing(before);
      for k := 0 to |s.sidecars|
        invariant Contents() == UpsertAll(before + SidecarCards(s, x, k))
      {
        if s.sidecars[k].Some? {
          UpsertTool(SidecarCard(s, x, k), before + SidecarCards(s, x, k));
          Associate(before, SidecarCards(s, x, k), [SidecarCard(s, x, k)]);
        } else {
          AppendNothing(SidecarCards(s, x, k));
        }
      }
    }

    method AddUnmatched(x: Index, ghost before: seq<Card>)
      requires Contents() == UpsertAll(before)
      requires forall id :: id in x.ids ==> id in x.byId && id != ""
      requires forall i, j :: 0 <= i < j < |x.ids| ==> x.ids[i] != x.ids[j]
      modifies this
      ensures Contents() == UpsertAll(before + UnmatchedCards(x, x.ids, IdsOf(before)))
    {
      assert x.ids[..0] == [] && before + [] == before;
      for k := 0 to |x.ids|
        invariant Contents() == UpsertAll(before + UnmatchedCards(x, x.ids[..k], IdsOf(before)))
      {
        var id := x.ids[k];
        UnmatchedKnown(x, k, before);
        UnmatchedStep(x, k, IdsOf(before), before);
        if id !in byId {
          UpsertTool(ResultCard(id, x.byId[id]), before + UnmatchedCards(x, x.ids[..k], IdsOf(before)));
        } else {
          AppendNothing(before + UnmatchedCards(x, x.ids[..k], IdsOf(before)));
        }
      }
      assert x.ids[..|x.ids|] == x.ids;
    }
  }

  /** The four passes compute the projection. */
  method ProjectTranscript(s: Session) returns (p: Projection)
    ensures p == Project(s)
  {
    var x := CollectResults(s);
    IndexIsSound(s, x);
    NoteAllIs(Notes(s, |s.messages|));
    var table := new CardTable();
    var rows := table.AddCarriers(s, x);
    ghost var carriers := CarrierCards(s, x, |s.messages|);
    table.AddSidecars(s, x, carriers);
    table.AddAll(OrphanCards(s, x.orphans), carriers + SidecarCards(s, x, |s.sidecars|));
    table.AddUnmatched(x, EarlierCards(s));
    OrderIsUnique(AllCards(s));
    p := Limited(rows, Sort(Listed(table.Contents())));
  }
}
