/** The AI assistant side panel: which text a feature request sends, how
    the panel's `result`, `loading` and `activeFeature` move around the
    request, and applying the result to the document. */
module AIAssistant {
  import opened Common
  import opened Text

  /** Raw content shorter than this is refused before any request. */
  const MinContentLength := 10
  /** At most this many code units of stripped text are sent. */
  const MaxRequestText := 2000

  /** One entry of the `aiFeatures` table: the id a button reports and the
      path segment of the endpoint it calls. */
  datatype Feature = Feature(id: string, name: string, endpoint: string)

  const Features: seq<Feature> := [
    Feature("grammar", "Grammar Check", "grammar-check"),
    Feature("enhance", "Enhance Writing", "enhance"),
    Feature("summarize", "Summarize", "summarize"),
    Feature("complete", "Auto-Complete", "complete"),
    Feature("suggestions", "Suggestions", "suggestions")
  ]

  /** The endpoint of the first feature in `table` with id `id`. The panel
      itself never looks a feature up: each button passes its own entry's
      endpoint and id. The lookup states which endpoint the table pairs
      with each id. */
  function EndpointIn(table: seq<Feature>, id: string): (r: Option<string>)
    ensures r.None? <==> forall k :: 0 <= k < |table| ==> table[k].id != id
    ensures r.Some? ==>
      exists k :: 0 <= k < |table| && table[k].id == id && table[k].endpoint == r.value
        && (forall k' :: 0 <= k' < k ==> table[k'].id != id)
  {
    if table == [] then None
    else if table[0].id == id then Some(table[0].endpoint)
    else
      var r := EndpointIn(table[1..], id);
      assert forall k :: 1 <= k < |table| ==> table[k] == table[1..][k - 1];
      r
  }

  /** The endpoint a feature button calls. */
  function EndpointOf(id: string): Option<string>
  {
    EndpointIn(Features, id)
  }

  /** In a table without repeated ids, every id resolves to the endpoint
      listed with it. */
  lemma {:induction false} EndpointInFinds(table: seq<Feature>, k: nat)
    requires k < |table|
    requires forall i, j :: 0 <= i < j < |table| ==> table[i].id != table[j].id
    ensures EndpointIn(table, table[k].id) == Some(table[k].endpoint)
  {
    if k > 0 {
      assert table[0].id != table[k].id;
      assert table[1..][k - 1] == table[k];
      EndpointInFinds(table[1..], k - 1);
    }
  }

  /** The five ids are pairwise distinct. */
  lemma FeatureIdsDistinct()
    ensures forall i, j :: 0 <= i < j < |Features| ==> Features[i].id != Features[j].id
  {
    var ids := seq(|Features|, i requires 0 <= i < |Features| => Features[i].id);
    assert |ids[0]| == 7 && |ids[1]| == 7 && |ids[2]| == 9 && |ids[3]| == 8 && |ids[4]| == 11;
    assert ids[0][0] == 'g' && ids[1][0] == 'e';
  }

  /** Each button selects exactly one endpoint: the one listed with its id. */
  lemma FeatureTable()
    ensures forall k :: 0 <= k < |Features| ==> EndpointOf(Features[k].id) == Some(Features[k].endpoint)
    ensures EndpointOf("grammar") == Some("grammar-check")
    ensures EndpointOf("enhance") == Some("enhance")
    ensures EndpointOf("summarize") == Some("summarize")
    ensures EndpointOf("complete") == Some("complete")
    ensures EndpointOf("suggestions") == Some("suggestions")
  {
    FeatureIdsDistinct();
    forall k | 0 <= k < |Features|
      ensures EndpointOf(Features[k].id) == Some(Features[k].endpoint)
    {
      EndpointInFinds(Features, k);
    }
    assert Features[0].id == "grammar" && Features[1].id == "enhance" && Features[2].id == "summarize";
    assert Features[3].id == "complete" && Features[4].id == "suggestions";
  }

  /** `content.replace(/<[^>]*>/g, "").substring(0, 2000)`: the text a
      request sends. */
  function RequestText(content: string): (text: string)
    ensures var stripped := StripTags(content);
      && |text| == (if |stripped| < MaxRequestText then |stripped| else MaxRequestText)
      && text == stripped[..|text|]
    ensures TagFree(text)
  {
    var stripped := StripTags(content);
    var n := if |stripped| < MaxRequestText then |stripped| else MaxRequestText;
    TagFreePrefix(stripped, n);
    stripped[..n]
  }

  /** The gate applies to the raw content, so markup alone can pass it:
      a single tag of ten or more characters, say `<p class=x>`, passes
      the gate and sends an empty text. */
  lemma {:induction false} MarkupPassesGate(inner: string)
    requires '>' !in inner && |inner| >= MinContentLength - 2
    ensures var content := "<" + inner + ">";
      |content| >= MinContentLength && RequestText(content) == ""
  {
    var content := "<" + inner + ">";
    var k := |content| - 1;
    assert content[..k] == "<" + inner;
    assert '>' !in content[..k];
    StripTagsDropsTag(content, k);
    assert content[k + 1..] == [];
  }

  /** `POST /ai/:endpoint` with body `{text}`. */
  datatype AIRequest = AIRequest(path: string, text: string)

  /** The panel's state. `content`, `onApply` and `isReadOnly` are props:
      they are passed to the handlers, and what `onApply` receives is
      returned. */
  class Assistant {
    var result: string
    var loading: bool
    var activeFeature: string

    constructor ()
      ensures result == "" && !loading && activeFeature == ""
    {
      result := "";
      loading := false;
      activeFeature := "";
    }

    /** `handleAIRequest(endpoint, feature)` on prop `content` (`None` when
        missing), given the reply its request would get. Short content is
        refused with nothing changed; otherwise the feature becomes active,
        the result is replaced only by a successful reply, and loading is
        down again whatever the outcome. */
    method HandleAIRequest(content: Option<string>, endpoint: string, feature: string, response: Response<string>)
      returns (request: Option<AIRequest>, notice: Option<Notice>)
      modifies this
      ensures content.None? || |content.value| < MinContentLength ==>
        && request == None
        && notice == Some(Notice("Not enough content", WarningLevel))
        && unchanged(this)
      ensures content.Some? && |content.value| >= MinContentLength ==>
        && request == Some(AIRequest("/ai/" + endpoint, RequestText(content.value)))
        && activeFeature == feature
        && !loading
        && result == (if response.Replied? && response.success then response.data else old(result))
        && notice == match response
             case Failed => Some(Notice("AI Request Failed", ErrorLevel))
             case Replied(true, _) => Some(Notice("AI Processing Complete", SuccessLevel))
             case Replied(false, _) => None
    {
      if content.None? || |content.value| < MinContentLength {
        return None, Some(Notice("Not enough content", WarningLevel));
      }
      loading := true;
      activeFeature := feature;
      request := Some(AIRequest("/ai/" + endpoint, RequestText(content.value)));
      notice := None;
      match response {
        case Failed =>
          notice := Some(Notice("AI Request Failed", ErrorLevel));
        case Replied(success, text) =>
          if success {
            result := text;
            notice := Some(Notice("AI Processing Complete", SuccessLevel));
          }
      }
      loading := false;
    }

    /** A feature button: `handleAIRequest(feature.endpoint, feature.id)`
        for the `k`-th entry of the table. */
    method ClickFeature(k: nat, content: Option<string>, response: Response<string>)
      returns (request: Option<AIRequest>, notice: Option<Notice>)
      requires k < |Features|
      modifies this
      ensures content.None? || |content.value| < MinContentLength ==>
        && request == None
        && notice == Some(Notice("Not enough content", WarningLevel))
        && unchanged(this)
      ensures content.Some? && |content.value| >= MinContentLength ==>
        && request == Some(AIRequest("/ai/" + Features[k].endpoint, RequestText(content.value)))
        && activeFeature == Features[k].id
        && EndpointOf(activeFeature) == Some(Features[k].endpoint)
        && !loading
        && result == (if response.Replied? && response.success then response.data else old(result))
        && notice == match response
             case Failed => Some(Notice("AI Request Failed", ErrorLevel))
             case Replied(true, _) => Some(Notice("AI Processing Complete", SuccessLevel))
             case Replied(false, _) => None
    {
      FeatureTable();
      request, notice := HandleAIRequest(content, Features[k].endpoint, Features[k].id, response);
    }

    /** `handleApplyResult(isReadOnly)`: in read-only mode nothing is
        applied and nothing changes; otherwise the current result goes to
        `onApply` and the panel is cleared. */
    method HandleApplyResult(isReadOnly: bool) returns (applied: Option<string>, notice: Notice)
      modifies this`result, this`activeFeature
      ensures isReadOnly ==>
        applied == None && notice == Notice("Read-only mode", WarningLevel) && unchanged(this)
      ensures !isReadOnly ==>
        && applied == Some(old(result))
        && notice == Notice("Applied to document", SuccessLevel)
        && result == "" && activeFeature == ""
    {
      if isReadOnly {
        return None, Notice("Read-only mode", WarningLevel);
      }
      applied := Some(result);
      notice := Notice("Applied to document", SuccessLevel);
      result := "";
      activeFeature := "";
    }

    /** The "Clear" button and editing the result text. */
    method EditResult(text: string)
      modifies this`result
      ensures result == text
    {
      result := text;
    }
  }
}
