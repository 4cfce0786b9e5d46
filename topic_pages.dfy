/**
  What src/pages/Basics.tsx and src/pages/Advanced.tsx have in common: the
  topic named by the route parameter, its neighbours for the previous and
  next buttons, the paragraphs of its content, and the title and body of a
  bold item. The two pages differ only in their topic lists, their
  paragraph rules and their fallback links; those live in BasicsPage and
  AdvancedPage.
 */
module TopicPages {
  import opened Wrappers
  import opened Seqs
  import opened JsString

  /** The part of a topic record the text logic reads. */
  datatype Topic = Topic(id: string, title: string, content: string)

  /** No two topics share an id. */
  predicate UniqueTopicIds(data: seq<Topic>) {
    forall i, j :: 0 <= i < j < |data| ==> data[i].id != data[j].id
  }

  /** The ids of a topic list, in order: `Catalogue.Ids` for topics, kept apart because the record types differ. */
  function TopicIds(data: seq<Topic>): (r: seq<string>)
    ensures |r| == |data| && forall i :: 0 <= i < |data| ==> r[i] == data[i].id
  {
    seq(|data|, i requires 0 <= i < |data| => data[i].id)
  }

  /**
    `topicId ? data.find(t => t.id === topicId) : null`: no topic when the
    route has no parameter or an empty one (both are falsy), otherwise the
    first topic with that id, if any.
   */
  function SelectTopic(data: seq<Topic>, topicId: Option<string>): (r: Option<Topic>)
    ensures (topicId.None? || topicId == Some("")) ==> r.None?
    ensures topicId.Some? && topicId.value != "" ==>
      (r.None? <==> forall i :: 0 <= i < |data| ==> data[i].id != topicId.value)
    ensures r.Some? ==>
      (topicId.Some? &&
       exists i :: 0 <= i < |data| && data[i] == r.value && data[i].id == topicId.value &&
                   forall j :: 0 <= j < i ==> data[j].id != topicId.value)
  {
    match topicId
    case None => None
    case Some(id) => if id == "" then None else Find(data, (t: Topic) => t.id == id)
  }

  /** In a list with distinct ids, a non-empty id selects the one topic that carries it. */
  lemma {:induction false} SelectTopicById(data: seq<Topic>, i: int)
    requires UniqueTopicIds(data) && 0 <= i < |data| && data[i].id != ""
    ensures SelectTopic(data, Some(data[i].id)) == Some(data[i])
  {
    var r := SelectTopic(data, Some(data[i].id));
    var k :| 0 <= k < |data| && data[k] == r.value && data[k].id == data[i].id &&
             forall j :: 0 <= j < k ==> data[j].id != data[i].id;
  }

  /** `data.findIndex(t => t.id === id)`: the position of the first topic with this id, or -1. */
  function TopicIndex(data: seq<Topic>, id: string): (r: int)
    ensures -1 <= r < |data|
    ensures r == -1 <==> forall i :: 0 <= i < |data| ==> data[i].id != id
    ensures r >= 0 ==> data[r].id == id && forall i :: 0 <= i < r ==> data[i].id != id
  {
    FindIndex(data, (t: Topic) => t.id == id)
  }

  /** The topic at `i` is the first one carrying `id`. */
  predicate FirstCarrier(data: seq<Topic>, i: int, id: string) {
    0 <= i < |data| && data[i].id == id && forall j :: 0 <= j < i ==> data[j].id != id
  }

  /** `data[k]`: the topic at `k`, or `undefined` outside the list (negative `k` included). */
  function At(data: seq<Topic>, k: int): Option<Topic> {
    if 0 <= k < |data| then Some(data[k]) else None
  }

  /**
    `data[currentIndex - 1]`: the topic just before the first one carrying
    the current id; none when that is the first topic or no topic carries it.
   */
  function PrevTopic(data: seq<Topic>, current: Topic): (r: Option<Topic>)
    ensures r.None? <==>
      (|data| > 0 && data[0].id == current.id) || forall i :: 0 <= i < |data| ==> data[i].id != current.id
    ensures r.Some? ==> exists i :: 0 < i < |data| && FirstCarrier(data, i, current.id) && r.value == data[i - 1]
  {
    var k := TopicIndex(data, current.id);
    assert k >= 0 ==> FirstCarrier(data, k, current.id);
    At(data, k - 1)
  }

  /**
    `data[currentIndex + 1]`: the topic just after the first one carrying
    the current id; none when that is the last topic. A topic no one carries
    is found at -1, so its next topic is the first of a non-empty list.
   */
  function NextTopic(data: seq<Topic>, current: Topic): (r: Option<Topic>)
    ensures r.None? <==>
      |data| == 0 ||
      (data[|data| - 1].id == current.id && forall i :: 0 <= i < |data| - 1 ==> data[i].id != current.id)
    ensures r.Some? ==>
      (exists i :: 0 <= i < |data| - 1 && FirstCarrier(data, i, current.id) && r.value == data[i + 1]) ||
      (r.value == data[0] && forall i :: 0 <= i < |data| ==> data[i].id != current.id)
  {
    var k := TopicIndex(data, current.id);
    assert k >= 0 ==> FirstCarrier(data, k, current.id);
    At(data, k + 1)
  }

  /**
    In a list with distinct ids the topic at `i` is found at `i`; its
    previous topic is the one before it, absent for the first, and its next
    topic the one after it, absent for the last.
   */
  lemma {:induction false} NeighboursAt(data: seq<Topic>, i: int)
    requires UniqueTopicIds(data) && 0 <= i < |data|
    ensures TopicIndex(data, data[i].id) == i
    ensures PrevTopic(data, data[i]) == if i > 0 then Some(data[i - 1]) else None
    ensures NextTopic(data, data[i]) == if i + 1 < |data| then Some(data[i + 1]) else None
  {
    var r := TopicIndex(data, data[i].id);
  }

  /** Going to the next topic and then back returns to the same topic. */
  lemma {:induction false} NextThenPrev(data: seq<Topic>, i: int)
    requires UniqueTopicIds(data) && 0 <= i < |data| - 1
    ensures NextTopic(data, data[i]).Some?
    ensures PrevTopic(data, NextTopic(data, data[i]).value) == Some(data[i])
  {
    NeighboursAt(data, i);
    NeighboursAt(data, i + 1);
  }

  /**
    A topic that is not in the list (the pages never pass one) is taken as
    found at -1: it has no previous topic, and the first topic of the list
    is its next one.
   */
  lemma {:induction false} NeighboursOfMissing(data: seq<Topic>, current: Topic)
    requires forall i :: 0 <= i < |data| ==> data[i].id != current.id
    ensures PrevTopic(data, current) == None
    ensures NextTopic(data, current) == if |data| > 0 then Some(data[0]) else None
  {
    assert TopicIndex(data, current.id) == -1;
  }

  /** Where a navigation button leads. */
  datatype Nav =
    | TopicLink(route: string, title: string)   // a button named after a topic, to that topic's page
    | PageLink(route: string)                   // a fixed button to another page
    | NoLink                                    // an empty placeholder

  /** A button to `routePrefix + topic.id` named after the topic, or the fallback when there is no topic. */
  function LinkTo(routePrefix: string, topic: Option<Topic>, fallback: Nav): Nav {
    match topic
    case Some(t) => TopicLink(routePrefix + t.id, t.title)
    case None => fallback
  }

  /** The separator between paragraphs of a topic's content. */
  const ParagraphBreak: string := "\n\n"

  /**
    `content.split('\n\n')`: at least one paragraph, none holding a blank
    line, and joined with blank lines they give the content back. Each
    paragraph but the last ends at the leftmost next blank line, which
    fixes how a run of three or more newlines is cut.
   */
  function Paragraphs(content: string): (ps: seq<string>)
    ensures |ps| >= 1
    ensures Join(ps, ParagraphBreak) == content
    ensures forall i :: 0 <= i < |ps| ==> IndexOf(ps[i], ParagraphBreak, 0) == -1
    ensures forall i :: 0 <= i < |ps| - 1 ==> IndexOf(ps[i] + ParagraphBreak, ParagraphBreak, 0) == |ps[i]|
  {
    Split(content, ParagraphBreak)
  }

  /** How a page renders one paragraph. */
  datatype Block =
    | Header(text: string)                              // an `<h3>` heading
    | BoldItem(title: string, body: Option<string>)     // a bold title, then its body if there is one
    | NumberedLine(text: string)                        // a numbered line shown verbatim
    | Plain(text: string)                               // a `<p>` paragraph shown verbatim

  /** The bold-item marker. */
  const Bold: string := "**"

  /**
    `const parts = paragraph.split('**')`, then `parts[1]` as the title and
    `parts[2]?.replace(':', '')` as the body. The title is the text after the
    first `**` up to the next `**` or the end; there is a body exactly when
    a second `**` follows, and it is the text after that one up to the next
    `**` or the end, with its first ASCII colon removed. (The page prints
    the title followed by a colon of its own.)
   */
  function BoldItemOf(p: string): (b: Block)
    requires IndexOf(p, Bold, 0) >= 0
    ensures b.BoldItem?
    ensures var after := p[IndexOf(p, Bold, 0) + 2..];
            var k := IndexOf(after, Bold, 0);
            && b.title == (if k < 0 then after else after[..k])
            && (b.body.Some? <==> k >= 0)
            && (k >= 0 ==>
                 var rest := after[k + 2..];
                 var m := IndexOf(rest, Bold, 0);
                 b.body.value == RemoveFirst(if m < 0 then rest else rest[..m], ":"))
  {
    BoldParts(p);
    var parts := Split(p, Bold);
    BoldItem(parts[1], if |parts| > 2 then Some(RemoveFirst(parts[2], ":")) else None)
  }

  /** The second and third parts of a split on `**`, read off the text. */
  lemma BoldParts(p: string)
    requires IndexOf(p, Bold, 0) >= 0
    ensures var parts := Split(p, Bold);
            var after := p[IndexOf(p, Bold, 0) + 2..];
            var k := IndexOf(after, Bold, 0);
            && |parts| >= 2
            && parts[1] == (if k < 0 then after else after[..k])
            && (|parts| > 2 <==> k >= 0)
            && (k >= 0 ==>
                 var rest := after[k + 2..];
                 parts[2] == if IndexOf(rest, Bold, 0) < 0 then rest else rest[..IndexOf(rest, Bold, 0)])
  {
    var after := p[IndexOf(p, Bold, 0) + 2..];
    var tail := Split(after, Bold);
    SplitFirst(p, Bold);
    assert Split(p, Bold)[1..] == tail;
    SplitFirst(after, Bold);
    var k := IndexOf(after, Bold, 0);
    if k >= 0 {
      var rest := after[k + 2..];
      SplitFirst(rest, Bold);
      assert tail[1..] == Split(rest, Bold);
    }
  }

  /**
    Reading a bold item back: a paragraph laid out as a lead, `**`, a title,
    `**` and a body without `**` yields that title and that body with its
    first ASCII colon removed. The lead and the title must not end in a way
    that lets the `**` after them start earlier.
   */
  lemma {:induction false} BoldItemOfLayout(lead: string, title: string, body: string)
    requires IndexOf(lead + Bold, Bold, 0) == |lead|
    requires IndexOf(title + Bold, Bold, 0) == |title|
    requires IndexOf(body, Bold, 0) == -1
    ensures IndexOf(lead + Bold + title + Bold + body, Bold, 0) == |lead|
    ensures BoldItemOf(lead + Bold + title + Bold + body) == BoldItem(title, Some(RemoveFirst(body, ":")))
  {
    var p := lead + Bold + title + Bold + body;
    assert p == (lead + Bold) + (title + Bold + body);
    IndexOfExtend(lead + Bold, title + Bold + body, Bold);
    var after := p[|lead| + 2..];
    assert after == (title + Bold) + body;
    IndexOfExtend(title + Bold, body, Bold);
    assert after[|title| + 2..] == body;
    assert after[..|title|] == title;
  }

  /**
    A paragraph that opens with one character, a dot, a space and `**` has
    its first `**` right there, provided that character is not `*`.
   */
  lemma NumberedBoldMarker(p: string)
    requires |p| >= 5 && p[0] != '*' && p[1] == '.' && p[2] == ' ' && p[3] == '*' && p[4] == '*'
    ensures IndexOf(p, Bold, 0) == 3
  {
    assert OccursAt(p, Bold, 3) by {
      assert p[3..5] == Bold;
    }
    IndexOfIsFirst(p, Bold, 0, 3);
  }

  /**
    `replace(':', '')` looks for the ASCII colon only: a full-width colon
    `：` in front of the body stays, and the first ASCII colon after it goes.
   */
  lemma FullWidthColonKept(rest: string)
    ensures RemoveFirst(['：'] + rest, ":") == ['：'] + RemoveFirst(rest, ":")
  {
    IndexOfAfterLead('：', rest, ":");
    var k := IndexOf(rest, ":", 0);
    if k >= 0 {
      var s := ['：'] + rest;
      assert s[..k + 1] + s[k + 2..] == ['：'] + (rest[..k] + rest[k + 1..]);
    }
  }
}
