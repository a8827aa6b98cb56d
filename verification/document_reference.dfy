/** The document card of a bot reply (src/components/DocumentReference.jsx):
    a "View" button that looks up a temporary URL for the document and opens
    it, with a loading flag and an error line, and a "Download" link. */
module DocumentReference {
  import opened JsValue
  import Api

  /** The card's state: whether a lookup is running, and the error shown. */
  datatype CardState = CardState(loading: bool, error: Option<string>)

  const Idle: CardState := CardState(false, None)

  const NoUrlError: string := "Could not retrieve document URL"
  const OpenError: string := "Failed to open document"

  /** How the awaited lookup ended: it returned a value (`None` for `null`),
      or it threw. */
  datatype Lookup = Returned(value: Option<Json>) | Threw

  /** The end of a click: the card state, and the URL opened in a new
      window, if any. */
  datatype Outcome = Outcome(card: CardState, openedUrl: Option<Json>)

  /** The "View" button is disabled while a lookup is running. */
  predicate ViewEnabled(c: CardState) {
    !c.loading
  }

  /** The click's first updates: loading, and any earlier error cleared. */
  function ClickStart(c: CardState): (r: CardState)
    ensures r.loading && r.error.None?
  {
    CardState(true, None)
  }

  /** The click once the lookup has ended. A truthy URL is handed to
      `window.open`, which throws for a URL it cannot parse; `openThrows`
      says whether it does. An opened URL shows no error; a falsy URL shows
      the retrieval error; a throw, from the lookup or from opening, shows
      the opening error. Loading always ends. */
  function ClickEnd(c: CardState, lookup: Lookup, openThrows: bool): (r: Outcome)
    requires c.loading && c.error.None?
    ensures !r.card.loading
    ensures r.openedUrl.Some? <==> lookup.Returned? && Truthy(lookup.value) && !openThrows
    ensures r.openedUrl.Some? ==> r.openedUrl == lookup.value && r.card.error.None?
    ensures lookup.Returned? && !Truthy(lookup.value) ==> r.card.error == Some(NoUrlError)
    ensures lookup.Returned? && Truthy(lookup.value) && openThrows ==> r.card.error == Some(OpenError)
    ensures lookup.Threw? ==> r.card.error == Some(OpenError)
  {
    match lookup
    case Returned(v) =>
      if !Truthy(v) then Outcome(CardState(false, Some(NoUrlError)), None)
      else if openThrows then Outcome(CardState(false, Some(OpenError)), None)
      else Outcome(CardState(false, c.error), v)
    case Threw =>
      Outcome(CardState(false, Some(OpenError)), None)
  }

  /** A whole click whose lookup is `getDocumentUrl` with the given fetch
      outcome, and whose `window.open` throws exactly when `openThrows`. */
  function Click(c: CardState, fetch: Api.FetchOutcome, openThrows: bool): (r: Outcome)
    ensures r == ClickEnd(ClickStart(c), Returned(Api.GetDocumentUrl(fetch)), openThrows)
  {
    ClickEnd(ClickStart(c), Returned(Api.GetDocumentUrl(fetch)), openThrows)
  }

  /** Since `getDocumentUrl` never throws and only returns truthy URLs, a
      click opens the URL the server sent unless opening it throws. The
      retrieval error is shown exactly when there is no URL, the opening
      error exactly when there is one and opening it threw, and loading
      always ends. */
  lemma {:induction false} ClickOutcomes(c: CardState, fetch: Api.FetchOutcome, openThrows: bool)
    ensures var r := Click(c, fetch, openThrows);
            var url := Api.GetDocumentUrl(fetch);
            && !r.card.loading && ViewEnabled(r.card)
            && (r.openedUrl.Some? <==> url.Some? && !openThrows)
            && (r.openedUrl.Some? ==> r.openedUrl == url)
            && (r.card.error == Some(NoUrlError) <==> url.None?)
            && (r.card.error == Some(OpenError) <==> url.Some? && openThrows)
            && (r.openedUrl.None? <==> r.card.error.Some?)
  {
    assert NoUrlError != OpenError by {
      assert NoUrlError[0] == 'C' && OpenError[0] == 'F';
    }
  }

  /** The download link: the document's download URL, saved under the title. */
  datatype Link = Link(href: string, download: string)

  function DownloadLink(title: string, documentId: string): (r: Link)
    ensures r.download == title
    ensures r.href == Api.DownloadUrl(documentId)
  {
    Link(Api.BaseUrl + "/api/v1/documents/" + documentId + "/download", title)
  }
}
