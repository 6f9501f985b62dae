/** The dashboard script (public/js/dashboard.js): the escaper `esc`, the
    entry list it renders, the edit form and how it is preloaded, the
    lookup of the entry to edit, the choice between PUT and POST on submit,
    and the text shown when the server refuses a change. */
module Dashboard {
  import opened Wrappers
  import opened Text
  import FormClient
  import Submissions

  /** A record of `GET /api/entries` as the dashboard reads it; None is a
      field that is absent or null. */
  datatype ApiEntry = ApiEntry(id: nat, name: Option<string>, email: Option<string>, message: Option<string>)

  /** What app.js's `GET /api/entries` sends for a stored entry (its
      timestamp is not modelled here). */
  function Published(e: Submissions.Entry): ApiEntry {
    ApiEntry(e.id, Some(e.name), Some(e.email), Some(e.message))
  }

  function PublishedAll(entries: seq<Submissions.Entry>): (r: seq<ApiEntry>)
    ensures |r| == |entries| && forall i :: 0 <= i < |entries| ==> r[i] == Published(entries[i])
  {
    seq(|entries|, i requires 0 <= i < |entries| => Published(entries[i]))
  }

  // ---------------------------------------------------------------------
  // Escaping

  /** The lookup table of `esc`. */
  const Replacements: map<char, string> := map['&' := "&amp;", '<' := "&lt;", '>' := "&gt;", '"' := "&quot;"]

  function EscText(s: string): string {
    if s == [] then []
    else (if s[0] in Replacements then Replacements[s[0]] else [s[0]]) + EscText(s[1..])
  }

  /** `esc(s)` (dashboard.js:16): a missing value gives ''. */
  function Esc(s: Option<string>): string {
    EscText(s.GetOr([]))
  }

  /** The dashboard's `esc` and the form page's `escapeHtml` are the same
      mapping. */
  lemma {:induction false} EscTextIsEscapeText(s: string)
    ensures EscText(s) == FormClient.EscapeText(s)
  {
    if s != [] {
      EscTextIsEscapeText(s[1..]);
    }
  }

  lemma EscIsEscapeHtml(s: Option<string>)
    ensures Esc(s) == FormClient.EscapeHtml(s)
  {
    EscTextIsEscapeText(s.GetOr([]));
  }

  // ---------------------------------------------------------------------
  // The entry list

  /** One rendered entry: the `data-id` of its Edit and Delete buttons and
      its escaped text (the localised timestamp is not modelled). */
  datatype Card = Card(id: string, name: string, email: string, message: string)

  /** What the entry list shows. */
  datatype ListView = NoEntries | Cards(cards: seq<Card>)

  /** The card of one entry: its fields cannot inject markup. */
  function CardFor(e: ApiEntry): (c: Card)
    ensures c.id == NatToString(e.id)
    ensures '<' !in c.name && '<' !in c.email && '<' !in c.message
    ensures '>' !in c.name && '>' !in c.email && '>' !in c.message
    ensures '"' !in c.name && '"' !in c.email && '"' !in c.message
    ensures FormClient.Unescape(c.name) == e.name.GetOr([]) && FormClient.Unescape(c.message) == e.message.GetOr([])
    ensures FormClient.Unescape(c.email) == e.email.GetOr([])
  {
    EscIsEscapeHtml(e.name);
    EscIsEscapeHtml(e.email);
    EscIsEscapeHtml(e.message);
    FormClient.UnescapeEscape(e.name.GetOr([]));
    FormClient.UnescapeEscape(e.email.GetOr([]));
    FormClient.UnescapeEscape(e.message.GetOr([]));
    Card(NatToString(e.id), Esc(e.name), Esc(e.email), Esc(e.message))
  }

  /** The list part of `loadEntries` (dashboard.js:23-42): a missing or empty
      list shows "No entries yet."; otherwise one card per entry is appended,
      in the order received. */
  method RenderEntries(data: Option<seq<ApiEntry>>) returns (view: ListView)
    ensures view == NoEntries <==> data.None? || data.value == []
    ensures view.Cards? ==> |view.cards| == |data.value|
    ensures view.Cards? ==> forall i :: 0 <= i < |data.value| ==> view.cards[i] == CardFor(data.value[i])
  {
    if data.None? || |data.value| == 0 {
      return NoEntries;
    }
    var entries := data.value;
    var cards: seq<Card> := [];
    var i := 0;
    while i < |entries|
      invariant 0 <= i <= |entries|
      invariant |cards| == i
      invariant forall k :: 0 <= k < i ==> cards[k] == CardFor(entries[k])
    {
      cards := cards + [CardFor(entries[i])];
      i := i + 1;
    }
    view := Cards(cards);
  }

  // ---------------------------------------------------------------------
  // Finding the entry to edit

  /** The first entry whose printed id equals the key (dashboard.js:77). */
  function FindById(data: seq<ApiEntry>, key: string): (r: Option<ApiEntry>)
    ensures r.None? <==> forall i :: 0 <= i < |data| ==> NatToString(data[i].id) != key
    ensures r.Some? ==>
              exists k :: 0 <= k < |data| && data[k] == r.value && NatToString(r.value.id) == key
                          && forall i :: 0 <= i < k ==> NatToString(data[i].id) != key
  {
    if data == [] then None
    else if NatToString(data[0].id) == key then Some(data[0])
    else
      var r := FindById(data[1..], key);
      assert forall i :: 1 <= i < |data| ==> data[i] == data[1..][i - 1];
      if r.Some? then
        var k :| 0 <= k < |data[1..]| && data[1..][k] == r.value && NatToString(r.value.id) == key
                 && forall i :: 0 <= i < k ==> NatToString(data[1..][i].id) != key;
        assert data[k + 1] == r.value;
        r
      else r
  }

  /** Ids are distinct in a list. */
  predicate DistinctIds(data: seq<ApiEntry>) {
    forall i, j :: 0 <= i < j < |data| ==> data[i].id != data[j].id
  }

  /** With distinct ids, looking up the printed id of an entry finds that
      entry. */
  lemma FindByPrintedId(data: seq<ApiEntry>, i: nat)
    requires DistinctIds(data) && i < |data|
    ensures FindById(data, NatToString(data[i].id)) == Some(data[i])
  {
    var key := NatToString(data[i].id);
    var r := FindById(data, key);
    var k :| 0 <= k < |data| && data[k] == r.value && NatToString(r.value.id) == key
             && forall j :: 0 <= j < k ==> NatToString(data[j].id) != key;
    NatToStringInjective(data[k].id, data[i].id);
  }

  /** Clicking Edit on a rendered card finds the entry the card was drawn
      from, when ids are distinct. */
  lemma EditFindsCardEntry(data: seq<ApiEntry>, i: nat)
    requires DistinctIds(data) && i < |data|
    ensures FindById(data, CardFor(data[i]).id) == Some(data[i])
  {
    FindByPrintedId(data, i);
  }

  /** Against app.js's store, whose entry k - 1 has id k, the lookup of the
      printed id k gives that entry. */
  lemma FindInStore(entries: seq<Submissions.Entry>, k: nat)
    requires Submissions.IdsSequential(entries) && 1 <= k <= |entries|
    ensures FindById(PublishedAll(entries), NatToString(k)) == Some(Published(entries[k - 1]))
  {
    var data := PublishedAll(entries);
    assert DistinctIds(data) by {
      forall i, j | 0 <= i < j < |data| ensures data[i].id != data[j].id {
        assert data[i].id == entries[i].id == i + 1;
        assert data[j].id == entries[j].id == j + 1;
      }
    }
    assert data[k - 1].id == k;
    FindByPrintedId(data, k - 1);
  }

  // ---------------------------------------------------------------------
  // The edit form

  /** The four inputs of the API form. */
  datatype EditorFields = EditorFields(entryId: string, name: string, email: string, message: string)

  /** The inputs after `showNewForm(preload)` (dashboard.js:53-66): each is
      the preload's value, or '' where that value is falsy (an id of 0, a
      missing or empty text); without a preload all four are ''. */
  function PreloadFields(preload: Option<ApiEntry>): (r: EditorFields)
    ensures preload.None? ==> r == EditorFields([], [], [], [])
    ensures preload.Some? ==> (r.entryId == [] <==> preload.value.id == 0)
    ensures preload.Some? && preload.value.id != 0 ==> r.entryId == NatToString(preload.value.id)
    ensures preload.Some? ==> r.name == preload.value.name.GetOr([]) && r.email == preload.value.email.GetOr([])
                              && r.message == preload.value.message.GetOr([])
  {
    match preload
    case None => EditorFields([], [], [], [])
    case Some(e) =>
      EditorFields(if e.id == 0 then [] else NatToString(e.id), e.name.GetOr([]), e.email.GetOr([]), e.message.GetOr([]))
  }

  datatype Verb = Post | Put
  datatype Payload = Payload(name: string, email: string, message: string)
  datatype Request = Request(verb: Verb, url: string, payload: Payload)

  const EntriesPath := "/api/entries"

  /** The request the submit handler sends (dashboard.js:109-126). */
  function Dispatch(f: EditorFields): (r: Request)
    ensures r.verb == Put <==> f.entryId != []
    ensures r.verb == Put ==> r.url == EntriesPath + "/" + f.entryId
    ensures r.verb == Post ==> r.url == EntriesPath
    ensures r.payload == Payload(f.name, f.email, f.message)
  {
    var payload := Payload(f.name, f.email, f.message);
    if f.entryId != [] then Request(Put, EntriesPath + "/" + f.entryId, payload)
    else Request(Post, EntriesPath, payload)
  }

  /** Editing an entry with a non-zero id and saving sends PUT to that
      entry's URL, from which the id can be read back; the new-entry form
      sends POST to the collection. Both carry the form's text fields. */
  lemma EditThenSave(e: ApiEntry)
    ensures e.id != 0 ==>
              Dispatch(PreloadFields(Some(e))) ==
              Request(Put, "/api/entries/" + NatToString(e.id), Payload(e.name.GetOr([]), e.email.GetOr([]), e.message.GetOr([])))
    ensures e.id != 0 ==> Dispatch(PreloadFields(Some(e))).url[|"/api/entries/"|..] == NatToString(e.id)
    ensures Dispatch(PreloadFields(None)) == Request(Post, "/api/entries", Payload([], [], []))
  {
    if e.id != 0 {
      var u := Dispatch(PreloadFields(Some(e))).url;
      assert u == "/api/entries/" + NatToString(e.id);
      assert u[|"/api/entries/"|..] == NatToString(e.id);
    }
  }

  /** The API form of the dashboard: whether it is shown, and its inputs. */
  class EntryEditor {
    var visible: bool
    var fields: EditorFields

    constructor ()
      ensures !visible && fields == EditorFields([], [], [], [])
    {
      visible := false;
      fields := EditorFields([], [], [], []);
    }

    /** `showNewForm(preload)` (dashboard.js:53-66). */
    method ShowNewForm(preload: Option<ApiEntry>)
      modifies this
      ensures visible && fields == PreloadFields(preload)
    {
      visible := true;
      if preload.Some? {
        var e := preload.value;
        fields := EditorFields(if e.id == 0 then [] else NatToString(e.id), e.name.GetOr([]), e.email.GetOr([]), e.message.GetOr([]));
      } else {
        fields := EditorFields([], [], [], []);
      }
    }

    /** `hideNewForm()` (dashboard.js:68-70): the inputs keep their values. */
    method HideNewForm()
      modifies this
      ensures !visible && fields == old(fields)
    {
      visible := false;
    }

    /** `onEdit` after the entries arrive (dashboard.js:77-78): the first
        entry whose printed id is the button's id is loaded into the form;
        when there is none, nothing changes. */
    method OnEdit(data: seq<ApiEntry>, key: string)
      modifies this
      ensures FindById(data, key).None? ==> visible == old(visible) && fields == old(fields)
      ensures FindById(data, key).Some? ==> visible && fields == PreloadFields(FindById(data, key))
    {
      var found := FindById(data, key);
      if found.Some? {
        ShowNewForm(found);
      }
    }

    /** The request the submit handler builds from the current inputs. */
    method SubmitRequest() returns (req: Request)
      ensures req == Dispatch(fields)
      ensures req.verb == Put <==> fields.entryId != []
    {
      req := Dispatch(fields);
    }
  }

  // ---------------------------------------------------------------------
  // Errors from the server

  /** The JSON body of a refused PUT or POST. */
  datatype ErrorBody = ErrorBody(error: Option<string>, errors: Option<seq<string>>)

  datatype Operation = Update | Create

  function DefaultError(op: Operation): string {
    match op
    case Update => "Update failed."
    case Create => "Create failed."
  }

  /** The alert text for a refused change (dashboard.js:123, 136): a truthy
      `error`, else the `errors` joined with ", " when that is not empty,
      else the operation's default. An empty `errors` array is truthy in
      JavaScript but joins to '', so it falls through to the default. */
  function ErrorText(err: ErrorBody, op: Operation): (text: string)
    ensures text != []
  {
    if err.error.Some? && err.error.value != [] then err.error.value
    else if err.errors.Some? && Join(err.errors.value, ", ") != [] then Join(err.errors.value, ", ")
    else DefaultError(op)
  }

  /** Where the alert text comes from: a non-empty `error` wins; otherwise
      a non-empty join of `errors` is shown, each message at its offset and
      followed, all but the last, by ", "; an absent `errors`, `[]` or `[""]`
      gives the default. */
  lemma ErrorTextSources(err: ErrorBody, op: Operation)
    ensures err.error.Some? && err.error.value != [] ==> ErrorText(err, op) == err.error.value
    ensures (err.error.None? || err.error.value == []) && err.errors.Some? && Join(err.errors.value, ", ") != [] ==>
              ErrorText(err, op) == Join(err.errors.value, ", ")
    ensures (err.error.None? || err.error.value == []) && err.errors.Some? && Join(err.errors.value, ", ") != [] ==>
              LaidOut(ErrorText(err, op), err.errors.value, ", ")
    ensures (err.error.None? || err.error.value == [])
            && (err.errors.None? || err.errors.value == [] || err.errors.value == [[]]) ==>
              ErrorText(err, op) == DefaultError(op)
  {
    if (err.error.None? || err.error.value == []) && err.errors.Some? {
      JoinLayout(err.errors.value, ", ");
    }
  }
}
