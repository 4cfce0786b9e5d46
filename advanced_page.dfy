/**
  The text logic of src/pages/Advanced.tsx: how a paragraph of an advanced
  topic is rendered, and where the previous and next buttons lead. Unlike
  the basics page it has no heading rule, takes a fourth bold item, and
  shows any other paragraph that opens with a number and a dot as a
  numbered line.
 */
module AdvancedPage {
  import opened Wrappers
  import opened JsString
  import opened TopicPages

  /** The ids of `advancedData`, in order. */
  const AdvancedTopicIds: seq<string> :=
    ["type-inference", "type-aliases", "utility-types", "type-guards", "decorators", "modules"]

  /** The four prefixes the page treats as bold items. */
  predicate IsBoldItem(p: string)
    ensures IsBoldItem(p) <==> |p| >= 5 && '1' <= p[0] <= '4' && p[1..5] == ". **"
  {
    StartsWith(p, "1. **") || StartsWith(p, "2. **") || StartsWith(p, "3. **") || StartsWith(p, "4. **")
  }

  /**
    The advanced rules, tried in order: a bold item numbered 1 to 4, then a
    line matching `/^\d+\./`, then a plain paragraph. Numbered lines and
    plain paragraphs show the paragraph as it is.
   */
  function ParagraphBlock(p: string): (b: Block)
    ensures b.BoldItem? <==> IsBoldItem(p)
    ensures b.NumberedLine? <==> !IsBoldItem(p) && StartsWithNumberDot(p)
    ensures b.Plain? <==> !IsBoldItem(p) && !StartsWithNumberDot(p)
    ensures !b.Header?
    ensures (b.NumberedLine? || b.Plain?) ==> b.text == p
  {
    if IsBoldItem(p) then
      NumberedBoldMarker(p);
      BoldItemOf(p)
    else if StartsWithNumberDot(p) then
      NumberedLine(p)
    else
      Plain(p)
  }

  /** What the page shows for a topic's content: one block per paragraph, in order. */
  function Render(content: string): (r: seq<Block>)
    ensures |r| == |Paragraphs(content)|
    ensures forall i :: 0 <= i < |r| ==> r[i] == ParagraphBlock(Paragraphs(content)[i])
  {
    var ps := Paragraphs(content);
    seq(|ps|, i requires 0 <= i < |ps| => ParagraphBlock(ps[i]))
  }

  /**
    A paragraph that is not a bold item shows as a numbered line exactly
    when it opens with one or more ASCII digits followed by a dot.
   */
  lemma NumberedLineMeaning(p: string)
    requires !IsBoldItem(p)
    ensures ParagraphBlock(p).NumberedLine? <==>
      exists k :: 0 < k < |p| && p[k] == '.' && forall i :: 0 <= i < k ==> IsDigit(p[i])
  {
    StartsWithNumberDotMeaning(p);
  }

  /**
    A bold item numbered 1 to 4, laid out as `d. **title**body` with no `**`
    in the body, renders its title and its body less the first ASCII colon.
   */
  lemma {:induction false} BoldItemRoundTrip(d: char, title: string, body: string)
    requires d == '1' || d == '2' || d == '3' || d == '4'
    requires IndexOf(title + Bold, Bold, 0) == |title|
    requires IndexOf(body, Bold, 0) == -1
    ensures ParagraphBlock([d] + ". " + Bold + title + Bold + body) == BoldItem(title, Some(RemoveFirst(body, ":")))
  {
    var lead := [d] + ". ";
    var p := lead + Bold + title + Bold + body;
    NumberedBoldMarker(lead + Bold);
    BoldItemOfLayout(lead, title, body);
    assert p[..5] == lead + Bold;
    NumberedPrefix(p, d);
  }

  /** A paragraph opening with `1. **` to `4. **` is a bold item. */
  lemma NumberedPrefix(p: string, d: char)
    requires d == '1' || d == '2' || d == '3' || d == '4'
    requires |p| >= 5 && p[..5] == [d] + ". " + Bold
    ensures IsBoldItem(p)
  {
    if d == '1' {
      assert StartsWith(p, "1. **");
    } else if d == '2' {
      assert StartsWith(p, "2. **");
    } else if d == '3' {
      assert StartsWith(p, "3. **");
    } else {
      assert StartsWith(p, "4. **");
    }
  }

  /**
    A fifth item, `5. **...`, is past the four bold prefixes, so it shows
    verbatim as a numbered line, asterisks included. The type-guards topic
    has one (src/data/advanced.ts:296).
   */
  lemma FifthItemIsNumberedLine(p: string)
    requires StartsWith(p, "5. **")
    ensures ParagraphBlock(p) == NumberedLine(p)
  {
    assert p[0] == '5' && p[1] == '.';
    assert !IsBoldItem(p);
    assert LeadingDigits(p[1..]) == 0;
  }

  /** `← {prev.title}` to `/advanced/{prev.id}`, or "← 返回基础知识" to `/basics` before the first topic. */
  function PrevLink(data: seq<Topic>, current: Topic): (r: Nav)
    ensures r.TopicLink? ==> exists i :: 0 <= i < |data| && r == TopicLink("/advanced/" + data[i].id, data[i].title)
    ensures !r.TopicLink? ==> r == PageLink("/basics")
  {
    LinkTo("/advanced/", PrevTopic(data, current), PageLink("/basics"))
  }

  /** `{next.title}` to `/advanced/{next.id}`, or "前往题目测试" to `/quiz` after the last topic. */
  function NextLink(data: seq<Topic>, current: Topic): (r: Nav)
    ensures r.TopicLink? ==> exists i :: 0 <= i < |data| && r == TopicLink("/advanced/" + data[i].id, data[i].title)
    ensures !r.TopicLink? ==> r == PageLink("/quiz")
  {
    LinkTo("/advanced/", NextTopic(data, current), PageLink("/quiz"))
  }

  /**
    On the topic at `i` of a list with distinct ids, the previous button
    leads to the topic before it, or back to the basics section on the
    first, and the next button to the topic after it, or to the quiz on the
    last.
   */
  lemma {:induction false} Navigation(data: seq<Topic>, i: int)
    requires UniqueTopicIds(data) && 0 <= i < |data|
    ensures PrevLink(data, data[i]) ==
      if i > 0 then TopicLink("/advanced/" + data[i - 1].id, data[i - 1].title) else PageLink("/basics")
    ensures NextLink(data, data[i]) ==
      if i + 1 < |data| then TopicLink("/advanced/" + data[i + 1].id, data[i + 1].title) else PageLink("/quiz")
  {
    NeighboursAt(data, i);
  }

  /**
    On the six advanced topics: `type-inference` leads back to the basics
    section and on to `type-aliases`; `modules` leads back to `decorators`
    and on to the quiz.
   */
  lemma {:induction false} AdvancedNavigation(data: seq<Topic>)
    requires TopicIds(data) == AdvancedTopicIds
    ensures PrevLink(data, data[0]) == PageLink("/basics")
    ensures NextLink(data, data[0]).route == "/advanced/type-aliases"
    ensures PrevLink(data, data[5]).route == "/advanced/decorators"
    ensures NextLink(data, data[5]) == PageLink("/quiz")
  {
    AdvancedIdsUnique(data);
    AdvancedNeighbourIds(data);
    Navigation(data, 0);
    Navigation(data, 5);
  }

  /** The routes of the second and the fifth advanced topic. */
  lemma AdvancedNeighbourIds(data: seq<Topic>)
    requires TopicIds(data) == AdvancedTopicIds
    ensures |data| == 6
    ensures "/advanced/" + data[1].id == "/advanced/type-aliases"
    ensures "/advanced/" + data[4].id == "/advanced/decorators"
  {
    assert data[1].id == TopicIds(data)[1];
    assert data[4].id == TopicIds(data)[4];
  }

  /** The advanced topic ids are pairwise distinct. */
  lemma AdvancedIdsUnique(data: seq<Topic>)
    requires TopicIds(data) == AdvancedTopicIds
    ensures UniqueTopicIds(data)
  {
    forall i, j | 0 <= i < j < |data|
      ensures data[i].id != data[j].id
    {
      assert data[i].id == AdvancedTopicIds[i] && data[j].id == AdvancedTopicIds[j];
    }
  }
}
