/**
  EsBulkContent: the body of a request to Elasticsearch's _bulk API, one
  action line and one document line per page, each ended by "\n". Turning a
  page into its JSON document (JsonWebPage) is left abstract: `render` gives
  the document's category and its JSON text.
 */
module EsBulk {

  import opened Outcomes
  import opened Snapshots
  import opened JavaStrings

  /** What JsonWebPage makes of a page: its category and its JSON text. */
  datatype JsonPage = JsonPage(category: string, json: string)

  /** The pages to index, in list order. */
  datatype EsBulkContent = EsBulkContent(pages: seq<Snapshot>)

  /** The end of the constructor: the content, or the exception it threw. */
  datatype Made = Made(content: EsBulkContent) | Refused(fault: Fault)

  /** EsBulkContent(pages), with None for a null list: at least one page is required. */
  function New(pages: Option<seq<Snapshot>>): (r: Made)
    ensures r.Refused? <==> pages.None? || pages.value == []
    ensures r.Refused? ==> r.fault == IllegalArgument("There must be at least 1 page!")
    ensures r.Made? ==> r.content.pages == pages.value
  {
    if pages.None? || |pages.value| == 0 then Refused(IllegalArgument("There must be at least 1 page!"))
    else Made(EsBulkContent(pages.value))
  }

  /** The action-and-metadata line: the document type, and the id unless it
      is empty; both are pasted in without any escaping. */
  function ActionLine(category: string, id: string): (line: string)
    ensures '\n' !in category && '\n' !in id ==> '\n' !in line
  {
    if id == "" then "{\"index\":{\"_type\":\"" + category + "\"}}"
    else "{\"index\":{\"_type\":\"" + category + "\", \"_id\":\"" + id + "\"}}"
  }

  /** One page's pair of lines; the id is the page's url (preparePage). */
  function Entry(page: Snapshot, render: Snapshot -> JsonPage): (entry: string)
    ensures |entry| > 0 && entry[|entry| - 1] == '\n'
  {
    ActionLine(render(page).category, page.url) + "\n" + render(page).json + "\n"
  }

  /** A page's pair of lines splits at "\n" into its action line and its
      document, followed by the empty field after the final "\n". */
  lemma EntryLines(page: Snapshot, render: Snapshot -> JsonPage)
    requires OneLine(page, render)
    ensures Fields(Entry(page, render), '\n') == [ActionLine(render(page).category, page.url), render(page).json, ""]
  {
    var action := ActionLine(render(page).category, page.url);
    EntryFields(action, render(page).json, "");
    FieldsWithout("", '\n');
    assert action + "\n" + render(page).json + "\n" + "" == Entry(page, render);
  }

  /** EsBulkContent.structure: the entries of the pages in list order. */
  function Structure(content: EsBulkContent, render: Snapshot -> JsonPage): (s: string)
    ensures s == "" <==> content.pages == []
    decreases |content.pages|
  {
    if content.pages == [] then ""
    else Entry(content.pages[0], render) + Structure(EsBulkContent(content.pages[1..]), render)
  }

  /** The lines a bulk body should consist of: per page, the action line and then the document. */
  function BulkLines(pages: seq<Snapshot>, render: Snapshot -> JsonPage): (lines: seq<string>)
    ensures |lines| == 2 * |pages|
  {
    if pages == [] then []
    else [ActionLine(render(pages[0]).category, pages[0].url), render(pages[0]).json] + BulkLines(pages[1..], render)
  }

  /** Line 2i is the action line of page i, and line 2i + 1 its document. */
  lemma {:induction false} BulkLinesAt(pages: seq<Snapshot>, render: Snapshot -> JsonPage, i: nat)
    requires i < |pages|
    ensures BulkLines(pages, render)[2 * i] == ActionLine(render(pages[i]).category, pages[i].url)
    ensures BulkLines(pages, render)[2 * i + 1] == render(pages[i]).json
    decreases i
  {
    if i > 0 {
      BulkLinesAt(pages[1..], render, i - 1);
      assert pages[1..][i - 1] == pages[i];
    }
  }

  /** No line break in a page's category, url or JSON text: the JSON writer
      escapes line breaks, the category and url are taken as given. */
  predicate OneLine(page: Snapshot, render: Snapshot -> JsonPage) {
    '\n' !in render(page).category && '\n' !in page.url && '\n' !in render(page).json
  }

  /** An action line spans one line when its parts do. */
  lemma ActionLineOneLine(category: string, id: string)
    requires '\n' !in category && '\n' !in id
    ensures '\n' !in ActionLine(category, id)
  {
  }

  /**
    Splitting the body at "\n" gives back exactly the two lines of each page
    in order, followed by the empty field after the final "\n".
   */
  lemma {:induction false} StructureLines(content: EsBulkContent, render: Snapshot -> JsonPage)
    requires forall i :: 0 <= i < |content.pages| ==> OneLine(content.pages[i], render)
    ensures Fields(Structure(content, render), '\n') == BulkLines(content.pages, render) + [""]
    decreases |content.pages|
  {
    var pages := content.pages;
    if pages == [] {
      FieldsWithout("", '\n');
    } else {
      var page := pages[0];
      var rest := EsBulkContent(pages[1..]);
      assert OneLine(page, render);
      forall i | 0 <= i < |rest.pages| ensures OneLine(rest.pages[i], render) {
        assert rest.pages[i] == pages[i + 1];
      }
      StructureLines(rest, render);
      ActionLineOneLine(render(page).category, page.url);
      EntryFields(ActionLine(render(page).category, page.url), render(page).json, Structure(rest, render));
    }
  }

  /** A pair of one-line strings, each ended by "\n", splits into the pair. */
  lemma EntryFields(action: string, json: string, tail: string)
    requires '\n' !in action && '\n' !in json
    ensures Fields(action + "\n" + json + "\n" + tail, '\n') == [action, json] + Fields(tail, '\n')
  {
    assert action + "\n" + json + "\n" + tail == action + ['\n'] + (json + ['\n'] + tail);
    FieldsAfterPrefix(action, '\n', json + ['\n'] + tail);
    FieldsAfterPrefix(json, '\n', tail);
  }

  /** A body built from at least one page is not empty and ends with "\n". */
  lemma StructureEndsWithNewline(content: EsBulkContent, render: Snapshot -> JsonPage)
    requires content.pages != []
    ensures var s := Structure(content, render); |s| > 0 && s[|s| - 1] == '\n'
    decreases |content.pages|
  {
    var rest := EsBulkContent(content.pages[1..]);
    if rest.pages != [] {
      StructureEndsWithNewline(rest, render);
    }
  }
}
