/**
  The text logic of src/pages/Basics.tsx: how a paragraph of a basics topic
  is rendered, and where the previous and next buttons lead.
 */
module BasicsPage {
  import opened Wrappers
  import opened JsString
  import opened TopicPages

  /** The ids of `basicsData`, in order. */
  const BasicsTopicIds: seq<string> := ["types", "interfaces", "functions", "classes", "enums", "generics"]

  /** The three prefixes the page treats as bold items; a fourth item is not among them. */
  predicate IsBoldItem(p: string)
    ensures IsBoldItem(p) <==> |p| >= 5 && '1' <= p[0] <= '3' && p[1..5] == ". **"
  {
    StartsWith(p, "1. **") || StartsWith(p, "2. **") || StartsWith(p, "3. **")
  }

  /**
    The basics rules, tried in order: a `### ` heading, then a bold item
    numbered 1 to 3, then a plain paragraph. A heading shows the paragraph
    without its `### `; a plain paragraph shows it as it is.
   */
  function ParagraphBlock(p: string): (b: Block)
    ensures b.Header? <==> StartsWith(p, "### ")
    ensures b.BoldItem? <==> !StartsWith(p, "### ") && IsBoldItem(p)
    ensures b.Plain? <==> !StartsWith(p, "### ") && !IsBoldItem(p)
    ensures !b.NumberedLine?
    ensures b.Header? ==> b.text == p[4..]
    ensures b.Plain? ==> b.text == p
  {
    if StartsWith(p, "### ") then
      RemoveFirstOfPrefix(p, "### ");
      Header(RemoveFirst(p, "### "))
    else if IsBoldItem(p) then
      NumberedBoldMarker(p);
      BoldItemOf(p)
    else
      Plain(p)
  }

  /** What the page shows for a topic's content: one block per paragraph, in order. */
  function Render(content: string): (r: seq<Block>)
    ensures |r| == |Paragraphs(content)|
    ensures forall i :: 0 <= i < |r| ==> r[i] == ParagraphBlock(Paragraphs(content)[i])
  {
    var ps := Paragraphs(content);
    seq(|ps|, i requires 0 <= i < |ps| => ParagraphBlock(ps[i]))
  }

  /**
    A bold item numbered 1 to 3, laid out as `d. **title**body` with no `**`
    in the body, renders its title and its body less the first ASCII colon.
   */
  lemma {:induction false} BoldItemRoundTrip(d: char, title: string, body: string)
    requires d == '1' || d == '2' || d == '3'
    requires IndexOf(title + Bold, Bold, 0) == |title|
    requires IndexOf(body, Bold, 0) == -1
    ensures ParagraphBlock([d] + ". " + Bold + title + Bold + body) == BoldItem(title, Some(RemoveFirst(body, ":")))
  {
    var lead := [d] + ". ";
    var p := lead + Bold + title + Bold + body;
    NumberedBoldMarker(lead + Bold);
    BoldItemOfLayout(lead, title, body);
    assert p[..5] == lead + Bold;
    NumberedPrefix(p, d);
  }

  /** A paragraph opening with `1. **`, `2. **` or `3. **` is a bold item and no heading. */
  lemma NumberedPrefix(p: string, d: char)
    requires d == '1' || d == '2' || d == '3'
    requires |p| >= 5 && p[..5] == [d] + ". " + Bold
    ensures IsBoldItem(p) && !StartsWith(p, "### ")
  {
    assert p[0] == d;
    if d == '1' {
      assert StartsWith(p, "1. **");
    } else if d == '2' {
      assert StartsWith(p, "2. **");
    } else {
      assert StartsWith(p, "3. **");
    }
  }

  /**
    A fourth item, `4. **...`, is not among the bold prefixes, so it shows
    as a plain paragraph, asterisks included. The generics topic has one
    (src/data/basics.ts:379).
   */
  lemma FourthItemIsPlain(p: string)
    requires StartsWith(p, "4. **")
    ensures ParagraphBlock(p) == Plain(p)
  {
    assert p[0] == '4';
    assert !IsBoldItem(p) && !StartsWith(p, "### ");
  }

  /** `← {prev.title}` to `/basics/{prev.id}`, or an empty placeholder before the first topic. */
  function PrevLink(data: seq<Topic>, current: Topic): (r: Nav)
    ensures r.TopicLink? ==> exists i :: 0 <= i < |data| && r == TopicLink("/basics/" + data[i].id, data[i].title)
    ensures !r.TopicLink? ==> r == NoLink
  {
    LinkTo("/basics/", PrevTopic(data, current), NoLink)
  }

  /** `{next.title}` to `/basics/{next.id}`, or "前往进阶知识" to `/advanced` after the last topic. */
  function NextLink(data: seq<Topic>, current: Topic): (r: Nav)
    ensures r.TopicLink? ==> exists i :: 0 <= i < |data| && r == TopicLink("/basics/" + data[i].id, data[i].title)
    ensures !r.TopicLink? ==> r == PageLink("/advanced")
  {
    LinkTo("/basics/", NextTopic(data, current), PageLink("/advanced"))
  }

  /**
    On the topic at `i` of a list with distinct ids, the previous button
    leads to the topic before it (none on the first), and the next button to
    the topic after it, or to the advanced section on the last.
   */
  lemma {:induction false} Navigation(data: seq<Topic>, i: int)
    requires UniqueTopicIds(data) && 0 <= i < |data|
    ensures PrevLink(data, data[i]) ==
      if i > 0 then TopicLink("/basics/" + data[i - 1].id, data[i - 1].title) else NoLink
    ensures NextLink(data, data[i]) ==
      if i + 1 < |data| then TopicLink("/basics/" + data[i + 1].id, data[i + 1].title) else PageLink("/advanced")
  {
    NeighboursAt(data, i);
  }

  /**
    On the six basics topics: `types` has no previous button and leads on
    to `interfaces`; `generics` leads back to `enums` and on to the advanced
    section.
   */
  lemma {:induction false} BasicsNavigation(data: seq<Topic>)
    requires TopicIds(data) == BasicsTopicIds
    ensures PrevLink(data, data[0]) == NoLink
    ensures NextLink(data, data[0]).route == "/basics/interfaces"
    ensures PrevLink(data, data[5]).route == "/basics/enums"
    ensures NextLink(data, data[5]) == PageLink("/advanced")
  {
    BasicsIdsUnique(data);
    BasicsNeighbourIds(data);
    Navigation(data, 0);
    Navigation(data, 5);
  }

  /** The routes of the second and the fifth basics topic. */
  lemma BasicsNeighbourIds(data: seq<Topic>)
    requires TopicIds(data) == BasicsTopicIds
    ensures |data| == 6
    ensures "/basics/" + data[1].id == "/basics/interfaces"
    ensures "/basics/" + data[4].id == "/basics/enums"
  {
    assert data[1].id == TopicIds(data)[1];
    assert data[4].id == TopicIds(data)[4];
  }

  /** The basics topic ids are pairwise distinct. */
  lemma BasicsIdsUnique(data: seq<Topic>)
    requires TopicIds(data) == BasicsTopicIds
    ensures UniqueTopicIds(data)
  {
    forall i, j | 0 <= i < j < |data|
      ensures data[i].id != data[j].id
    {
      assert data[i].id == BasicsTopicIds[i] && data[j].id == BasicsTopicIds[j];
    }
  }
}
