/**
  The question catalogue of src/data/quiz.ts: the 28 questions in definition
  order and the four queries over them. Nothing here changes the catalogue;
  `getRandomQuizzes` reorders a copy, modelled by an ordering supplied by the
  caller.
 */
module Catalogue {
  import opened Wrappers
  import opened Seqs

  datatype Difficulty = Easy | Medium | Hard

  /**
    One multiple-choice question; `correctAnswer` is a position in `options`.
    The question's wording and its explanation are only displayed, so they are
    not carried here.
   */
  datatype QuizItem = QuizItem(
    id: string,
    options: seq<string>,
    correctAnswer: int,
    difficulty: Difficulty)

  /** The catalogue in definition order; each question is a constant of its own below. */
  const Quizzes: seq<QuizItem> := [
    Q1, Q2, Q3, Q4, Q5, Q6, Q7, Q8, Q9, Q10, Q11, Q12, Q13, Q14,
    Q15, Q16, Q17, Q18, Q19, Q20, Q21, Q22, Q23, Q24, Q25, Q26, Q27, Q28]

  const Q1: QuizItem := QuizItem(
    id := "q1",
    options := [
      "string",
      "number",
      "array",
      "boolean"],
    correctAnswer := 2,
    difficulty := Easy)

  const Q2: QuizItem := QuizItem(
    id := "q2",
    options := [
      "使用 ? 符号",
      "使用 * 符号",
      "使用 ! 符号",
      "使用 @ 符号"],
    correctAnswer := 0,
    difficulty := Easy)

  const Q3: QuizItem := QuizItem(
    id := "q3",
    options := [
      "没有区别",
      "unknown 更安全，需要类型检查后才能使用",
      "any 更安全，unknown 不安全",
      "unknown 可以赋值给任何类型"],
    correctAnswer := 1,
    difficulty := Medium)

  const Q4: QuizItem := QuizItem(
    id := "q4",
    options := [
      "number",
      "string",
      "number | undefined",
      "编译错误"],
    correctAnswer := 3,
    difficulty := Medium)

  const Q5: QuizItem := QuizItem(
    id := "q5",
    options := [
      "使属性只能在构造函数中赋值",
      "使属性完全不能赋值",
      "使属性只能在类内部访问",
      "使属性变成静态属性"],
    correctAnswer := 0,
    difficulty := Easy)

  const Q6: QuizItem := QuizItem(
    id := "q6",
    options := [
      "接口可以扩展，类型别名不能",
      "类型别名可以扩展，接口不能",
      "它们完全相同",
      "接口只能用于对象，类型别名只能用于原始类型"],
    correctAnswer := 0,
    difficulty := Medium)

  const Q7: QuizItem := QuizItem(
    id := "q7",
    options := [
      "编译错误",
      "{ x: 1 }",
      "{ x: 1, y: 2 }",
      "undefined"],
    correctAnswer := 2,
    difficulty := Easy)

  const Q8: QuizItem := QuizItem(
    id := "q8",
    options := [
      "从 User 中选择 name 和 email 属性",
      "从 User 中排除 name 和 email 属性",
      "将 User 的所有属性变为可选",
      "将 User 的所有属性变为必需"],
    correctAnswer := 0,
    difficulty := Medium)

  const Q9: QuizItem := QuizItem(
    id := "q9",
    options := [
      "不正确，泛型不能这样使用",
      "正确，这是一个标准的泛型函数",
      "不正确，应该使用 interface",
      "不正确，需要指定 T 的具体类型"],
    correctAnswer := 1,
    difficulty := Easy)

  const Q10: QuizItem := QuizItem(
    id := "q10",
    options := [
      "extends",
      "implements",
      "where",
      "constraint"],
    correctAnswer := 0,
    difficulty := Medium)

  const Q11: QuizItem := QuizItem(
    id := "q11",
    options := [
      "string",
      "任意具有 length 属性的类型",
      "编译错误",
      "never"],
    correctAnswer := 1,
    difficulty := Hard)

  const Q12: QuizItem := QuizItem(
    id := "q12",
    options := [
      "&",
      "|",
      "||",
      "&&"],
    correctAnswer := 1,
    difficulty := Easy)

  const Q13: QuizItem := QuizItem(
    id := "q13",
    options := [
      "保护类型不被修改",
      "在运行时检查类型，缩小类型范围",
      "创建新的类型",
      "导出类型"],
    correctAnswer := 1,
    difficulty := Medium)

  const Q14: QuizItem := QuizItem(
    id := "q14",
    options := [
      "不正确，应该使用 ===",
      "正确，这是一个标准的类型守卫",
      "不正确，类型守卫不能返回 boolean",
      "不正确，应该使用 instanceof"],
    correctAnswer := 1,
    difficulty := Medium)

  const Q15: QuizItem := QuizItem(
    id := "q15",
    options := [
      "将 T 的所有属性变为可选",
      "将 T 的所有属性变为必需",
      "从 T 中选择部分属性",
      "从 T 中排除部分属性"],
    correctAnswer := 0,
    difficulty := Easy)

  const Q16: QuizItem := QuizItem(
    id := "q16",
    options := [
      "将 T 的所有属性变为可选",
      "将 T 的所有属性变为必需",
      "从 T 中选择部分属性",
      "使 T 的所有属性变为只读"],
    correctAnswer := 1,
    difficulty := Easy)

  const Q17: QuizItem := QuizItem(
    id := "q17",
    options := [
      "从 T 中选择 U 类型的属性",
      "从 T 中排除 U 类型的属性",
      "使 T 的属性变为只读",
      "合并 T 和 U 类型"],
    correctAnswer := 1,
    difficulty := Medium)

  const Q18: QuizItem := QuizItem(
    id := "q18",
    options := [
      "获取函数的参数类型",
      "获取函数的返回值类型",
      "创建一个新的函数类型",
      "执行该函数"],
    correctAnswer := 1,
    difficulty := Medium)

  const Q19: QuizItem := QuizItem(
    id := "q19",
    options := [
      "0",
      "5",
      "6",
      "undefined"],
    correctAnswer := 2,
    difficulty := Medium)

  const Q20: QuizItem := QuizItem(
    id := "q20",
    options := [
      "没有区别",
      "const enum 在编译时内联，普通 enum 会生成运行时代码",
      "const enum 只能包含字符串值",
      "普通 enum 不能有计算值"],
    correctAnswer := 1,
    difficulty := Hard)

  const Q21: QuizItem := QuizItem(
    id := "q21",
    options := [
      "属性可以在任何地方访问",
      "属性只能在类内部访问",
      "属性可以在类和子类中访问",
      "属性只能在模块内部访问"],
    correctAnswer := 2,
    difficulty := Medium)

  const Q22: QuizItem := QuizItem(
    id := "q22",
    options := [
      "interface",
      "abstract",
      "virtual",
      "static"],
    correctAnswer := 1,
    difficulty := Easy)

  const Q23: QuizItem := QuizItem(
    id := "q23",
    options := [
      "没有问题",
      "Dog 类不能访问父类的 private 属性",
      "bark 方法应该是 private",
      "应该使用 protected 而不是 private"],
    correctAnswer := 1,
    difficulty := Medium)

  const Q24: QuizItem := QuizItem(
    id := "q24",
    options := [
      "先执行 methodDec，再执行 classDec",
      "先执行 classDec，再执行 methodDec",
      "同时执行",
      "不确定"],
    correctAnswer := 0,
    difficulty := Hard)

  const Q25: QuizItem := QuizItem(
    id := "q25",
    options := [
      "泛型",
      "条件类型",
      "模板字面量类型",
      "映射类型"],
    correctAnswer := 2,
    difficulty := Hard)

  const Q26: QuizItem := QuizItem(
    id := "q26",
    options := [
      "获取对象的值",
      "获取类型的所有键的联合类型",
      "创建新对象",
      "删除属性"],
    correctAnswer := 1,
    difficulty := Medium)

  const Q27: QuizItem := QuizItem(
    id := "q27",
    options := [
      "类型推断",
      "条件类型中推断类型变量",
      "创建泛型",
      "定义接口"],
    correctAnswer := 1,
    difficulty := Hard)

  const Q28: QuizItem := QuizItem(
    id := "q28",
    options := [
      "联合类型",
      "条件类型",
      "映射类型",
      "等同于 T 本身"],
    correctAnswer := 3,
    difficulty := Hard)

  /** The id lists that `getQuizzesByCategory` filters by. */
  const BasicsIds: seq<string> := [
    "q1", "q2", "q3", "q4", "q5", "q6", "q7", "q8", "q12", "q13",
    "q14", "q15", "q16", "q17", "q18", "q19", "q20", "q21", "q22", "q23"]
  const AdvancedIds: seq<string> := ["q9", "q10", "q11", "q24", "q25", "q26", "q27", "q28"]

  /** The ids of `items`, in order. */
  function Ids(items: seq<QuizItem>): (r: seq<string>)
    ensures |r| == |items| && forall i :: 0 <= i < |items| ==> r[i] == items[i].id
  {
    seq(|items|, i requires 0 <= i < |items| => items[i].id)
  }

  /** No two items share an id. */
  predicate UniqueIds(items: seq<QuizItem>) {
    forall i, j :: 0 <= i < j < |items| ==> items[i].id != items[j].id
  }

  /** The catalogue ids as they are written, `q1` to `q28`. */
  const QuestionIds: seq<string> := ["q1", "q2", "q3", "q4", "q5", "q6", "q7", "q8", "q9", "q10", "q11", "q12", "q13", "q14", "q15", "q16", "q17", "q18", "q19", "q20", "q21", "q22", "q23", "q24", "q25", "q26", "q27", "q28"]

  lemma CatalogueIdsListed()
    ensures Ids(Quizzes) == QuestionIds
  {
  }

  lemma QuestionIdsDistinct()
    ensures Distinct(QuestionIds)
  {
    QuestionIdNumbers();
    forall i, j | 0 <= i < j < |QuestionIds|
      ensures QuestionIds[i] != QuestionIds[j]
    {
      assert IdNumber(QuestionIds[i]) != IdNumber(QuestionIds[j]);
    }
  }

  /** The number an id `q1` to `q99` carries after its `q`. */
  function IdNumber(id: string): int {
    if |id| == 2 then DigitValue(id[1])
    else if |id| == 3 then 10 * DigitValue(id[1]) + DigitValue(id[2])
    else 0
  }

  /** The value of an ASCII digit. */
  function DigitValue(c: char): int {
    c as int - '0' as int
  }

  /** The id at position `i` carries the number `i + 1`. */
  lemma QuestionIdNumbers()
    ensures forall i :: 0 <= i < |QuestionIds| ==> IdNumber(QuestionIds[i]) == i + 1
  {
  }

  /** 28 questions with pairwise distinct ids. */
  lemma CatalogueIdsUnique()
    ensures |Quizzes| == 28
    ensures UniqueIds(Quizzes)
  {
    CatalogueIdsListed();
    QuestionIdsDistinct();
    assert forall i :: 0 <= i < |Quizzes| ==> Quizzes[i].id == QuestionIds[i];
  }

  /** Every question has four options and its correct answer is one of them. */
  lemma CatalogueAnswersValid()
    ensures forall i :: 0 <= i < |Quizzes| ==>
      |Quizzes[i].options| == 4 && 0 <= Quizzes[i].correctAnswer < |Quizzes[i].options|
  {
  }

  lemma IdsOfConcat(a: seq<QuizItem>, b: seq<QuizItem>)
    ensures Ids(a + b) == Ids(a) + Ids(b)
  {
  }

  lemma IdsOfSlice(s: seq<QuizItem>, i: nat, j: nat)
    requires i <= j <= |s|
    ensures Ids(s[i..j]) == Ids(s)[i..j]
  {
  }

  /** The first item of `items` with this id, or nothing. */
  function FindQuiz(items: seq<QuizItem>, id: string): (r: Option<QuizItem>)
    ensures r.None? <==> id !in Ids(items)
    ensures r.Some? ==> r.value in items && r.value.id == id
    ensures r.Some? ==> exists i :: 0 <= i < |items| && items[i] == r.value &&
                                    forall j :: 0 <= j < i ==> items[j].id != id
  {
    Find(items, (q: QuizItem) => q.id == id)
  }

  /** `getQuizById`: the first catalogue question with this id, or nothing. */
  function GetQuizById(id: string): (r: Option<QuizItem>)
    ensures r.None? <==> id !in Ids(Quizzes)
    ensures r.Some? ==> r.value in Quizzes && r.value.id == id
    ensures r.Some? ==> exists i :: 0 <= i < |Quizzes| && Quizzes[i] == r.value &&
                                    forall j :: 0 <= j < i ==> Quizzes[j].id != id
  {
    FindQuiz(Quizzes, id)
  }

  /** In a list with unique ids, looking up an item's id finds that item. */
  lemma FindByUniqueId(items: seq<QuizItem>, i: int)
    requires UniqueIds(items) && 0 <= i < |items|
    ensures FindQuiz(items, items[i].id) == Some(items[i])
  {
    var r := FindQuiz(items, items[i].id);
    var k :| 0 <= k < |items| && items[k] == r.value && items[k].id == items[i].id
             && forall j :: 0 <= j < k ==> items[j].id != items[i].id;
    assert k == i;
  }

  /** Every catalogue question is found by its own id. */
  lemma GetQuizByIdFindsEach(i: int)
    requires 0 <= i < |Quizzes|
    ensures GetQuizById(Quizzes[i].id) == Some(Quizzes[i])
  {
    CatalogueIdsUnique();
    FindByUniqueId(Quizzes, i);
  }

  /** The items of difficulty `d`, in their original order. */
  function FilterByDifficulty(items: seq<QuizItem>, d: Difficulty): (r: seq<QuizItem>)
    ensures forall i :: 0 <= i < |r| ==> r[i].difficulty == d && r[i] in items
    ensures forall i :: 0 <= i < |items| && items[i].difficulty == d ==> items[i] in r
    ensures IsSubsequence(r, items)
    ensures forall q :: multiset(r)[q] == if q.difficulty == d then multiset(items)[q] else 0
  {
    FilterCounts(items, (q: QuizItem) => q.difficulty == d);
    Filter(items, (q: QuizItem) => q.difficulty == d)
  }

  /** `getQuizzesByDifficulty`: exactly the questions of difficulty `d`, in catalogue order. */
  function GetQuizzesByDifficulty(d: Difficulty): (r: seq<QuizItem>)
    ensures forall i :: 0 <= i < |r| ==> r[i].difficulty == d && r[i] in Quizzes
    ensures forall i :: 0 <= i < |Quizzes| && Quizzes[i].difficulty == d ==> Quizzes[i] in r
    ensures IsSubsequence(r, Quizzes)
    ensures UniqueIds(r)
  {
    CatalogueIdsUnique();
    var r := Filter(Quizzes, (q: QuizItem) => q.difficulty == d);
    SubsequenceKeepsUniqueIds(r, Quizzes);
    r
  }

  /** Dropping items from a list with distinct ids leaves distinct ids. */
  lemma {:induction false} SubsequenceKeepsUniqueIds(a: seq<QuizItem>, b: seq<QuizItem>)
    requires IsSubsequence(a, b) && UniqueIds(b)
    ensures UniqueIds(a)
    decreases |b|
  {
    if a != [] && b != [] {
      assert UniqueIds(b[1..]) by {
        forall i, j | 0 <= i < j < |b| - 1 ensures b[1..][i].id != b[1..][j].id {
          assert b[1..][i] == b[i + 1] && b[1..][j] == b[j + 1];
        }
      }
      if a[0] == b[0] {
        SubsequenceKeepsUniqueIds(a[1..], b[1..]);
        SubsequenceMembers(a[1..], b[1..]);
        forall j | 0 < j < |a| ensures a[0].id != a[j].id {
          assert a[j] == a[1..][j - 1];
          var k :| 0 <= k < |b[1..]| && b[1..][k] == a[j];
          assert b[k + 1] == a[j];
        }
        forall i, j | 0 < i < j < |a| ensures a[i].id != a[j].id {
          assert a[i] == a[1..][i - 1] && a[j] == a[1..][j - 1];
        }
      } else {
        SubsequenceKeepsUniqueIds(a, b[1..]);
      }
    }
  }

  /**
    `getRandomQuizzes`: the first `count` questions of a shuffled copy of the
    catalogue. The shuffle is given as `order`, any rearrangement of the
    catalogue positions; `slice(0, count)` with a negative `count` drops
    questions from the end.
   */
  function GetRandomQuizzes(count: int, order: seq<int>): (r: seq<QuizItem>)
    requires IsOrdering(order, |Quizzes|)
    ensures count >= 0 ==> |r| == if count < 28 then count else 28
    ensures count < 0 ==> |r| == if 28 + count > 0 then 28 + count else 0
    ensures forall i :: 0 <= i < |r| ==> r[i] in Quizzes
    ensures UniqueIds(r)
    ensures count >= 28 ==> forall k :: 0 <= k < |Quizzes| ==> Quizzes[k] in r
  {
    CatalogueIdsUnique();
    var shuffled := Permute(Quizzes, order);
    PermutedCatalogueUnique(order);
    PermutedCatalogueComplete(order);
    SliceTo(shuffled, count)
  }

  lemma PermutedCatalogueUnique(order: seq<int>)
    requires IsOrdering(order, |Quizzes|)
    ensures UniqueIds(Permute(Quizzes, order))
  {
    CatalogueIdsUnique();
    var shuffled := Permute(Quizzes, order);
    forall i, j | 0 <= i < j < |shuffled| ensures shuffled[i].id != shuffled[j].id {
      if order[i] < order[j] {
        assert Quizzes[order[i]].id != Quizzes[order[j]].id;
      } else {
        assert Quizzes[order[j]].id != Quizzes[order[i]].id;
      }
    }
  }

  lemma PermutedCatalogueComplete(order: seq<int>)
    requires IsOrdering(order, |Quizzes|)
    ensures forall k :: 0 <= k < |Quizzes| ==> Quizzes[k] in Permute(Quizzes, order)
  {
    var shuffled := Permute(Quizzes, order);
    forall k | 0 <= k < |Quizzes| ensures Quizzes[k] in shuffled {
      OrderingIsOnto(order, |Quizzes|, k);
      var i :| 0 <= i < |order| && order[i] == k;
      assert shuffled[i] == Quizzes[k];
    }
  }

  predicate InBasics(q: QuizItem) {
    q.id in BasicsIds
  }

  predicate InAdvanced(q: QuizItem) {
    q.id in AdvancedIds
  }

  /** The id list a category filters by: `'basics'` picks its own, any other value the advanced one. */
  function CategoryIds(category: string): seq<string> {
    if category == "basics" then BasicsIds else AdvancedIds
  }

  /**
    `getQuizzesByCategory`: the catalogue questions whose id is in the
    category's list, in catalogue order. There is no unknown-category case.
   */
  function GetQuizzesByCategory(category: string): (r: seq<QuizItem>)
    ensures forall i :: 0 <= i < |r| ==> r[i].id in CategoryIds(category) && r[i] in Quizzes
    ensures forall i :: 0 <= i < |Quizzes| && Quizzes[i].id in CategoryIds(category) ==> Quizzes[i] in r
    ensures IsSubsequence(r, Quizzes)
  {
    if category == "basics" then
      Filter(Quizzes, InBasics)
    else
      Filter(Quizzes, InAdvanced)
  }

  /** Each catalogue id is in exactly one of the two category lists. */
  lemma CategoryIdsPartitionCatalogue()
    ensures forall i :: 0 <= i < |Quizzes| ==> InBasics(Quizzes[i]) != InAdvanced(Quizzes[i])
  {
    BasicsRuns();
    AdvancedRuns();
  }

  lemma CatalogueRuns()
    ensures Quizzes == Quizzes[..8] + Quizzes[8..11] + Quizzes[11..23] + Quizzes[23..28]
  {
  }

  /** The catalogue falls into four runs that alternate between the two id lists. */
  lemma BasicsRuns()
    ensures forall i :: 0 <= i < 8 ==> InBasics(Quizzes[i])
    ensures forall i :: 8 <= i < 11 ==> !InBasics(Quizzes[i])
    ensures forall i :: 11 <= i < 23 ==> InBasics(Quizzes[i])
    ensures forall i :: 23 <= i < 28 ==> !InBasics(Quizzes[i])
  {
    CatalogueIdsListed();
    BasicsIdRuns();
    assert forall i :: 0 <= i < 28 ==> Ids(Quizzes)[i] == Quizzes[i].id;
  }

  lemma BasicsIdRuns()
    ensures forall i :: 0 <= i < 8 ==> QuestionIds[i] in BasicsIds
    ensures forall i :: 8 <= i < 11 ==> QuestionIds[i] !in BasicsIds
    ensures forall i :: 11 <= i < 23 ==> QuestionIds[i] in BasicsIds
    ensures forall i :: 23 <= i < 28 ==> QuestionIds[i] !in BasicsIds
  {
  }

  lemma AdvancedRuns()
    ensures forall i :: 0 <= i < 8 ==> !InAdvanced(Quizzes[i])
    ensures forall i :: 8 <= i < 11 ==> InAdvanced(Quizzes[i])
    ensures forall i :: 11 <= i < 23 ==> !InAdvanced(Quizzes[i])
    ensures forall i :: 23 <= i < 28 ==> InAdvanced(Quizzes[i])
  {
    CatalogueIdsListed();
    AdvancedIdRuns();
    assert forall i :: 0 <= i < 28 ==> Ids(Quizzes)[i] == Quizzes[i].id;
  }

  lemma AdvancedIdRuns()
    ensures forall i :: 0 <= i < 8 ==> QuestionIds[i] !in AdvancedIds
    ensures forall i :: 8 <= i < 11 ==> QuestionIds[i] in AdvancedIds
    ensures forall i :: 11 <= i < 23 ==> QuestionIds[i] !in AdvancedIds
    ensures forall i :: 23 <= i < 28 ==> QuestionIds[i] in AdvancedIds
  {
  }

  lemma BasicsRunIds()
    ensures Ids(Quizzes[..8] + Quizzes[11..23]) == BasicsIds
  {
    CatalogueIdsListed();
    IdsOfConcat(Quizzes[..8], Quizzes[11..23]);
    IdsOfSlice(Quizzes, 0, 8);
    assert Quizzes[..8] == Quizzes[0..8];
    IdsOfSlice(Quizzes, 11, 23);
    BasicsIdsOfRuns();
  }

  /** The basics ids are the catalogue ids of the two basics runs. */
  lemma BasicsIdsOfRuns()
    ensures QuestionIds[0..8] + QuestionIds[11..23] == BasicsIds
  {
    var picked := QuestionIds[0..8] + QuestionIds[11..23];
    forall k | 0 <= k < 20 ensures picked[k] == BasicsIds[k] {
      if k < 8 { assert picked[k] == QuestionIds[k]; } else { assert picked[k] == QuestionIds[k + 3]; }
    }
  }

  lemma AdvancedRunIds()
    ensures Ids(Quizzes[8..11] + Quizzes[23..28]) == AdvancedIds
  {
    CatalogueIdsListed();
    IdsOfConcat(Quizzes[8..11], Quizzes[23..28]);
    IdsOfSlice(Quizzes, 8, 11);
    IdsOfSlice(Quizzes, 23, 28);
    AdvancedIdsOfRuns();
  }

  /** The advanced ids are the catalogue ids of the two advanced runs. */
  lemma AdvancedIdsOfRuns()
    ensures QuestionIds[8..11] + QuestionIds[23..28] == AdvancedIds
  {
    var picked := QuestionIds[8..11] + QuestionIds[23..28];
    forall k | 0 <= k < 8 ensures picked[k] == AdvancedIds[k] {
      if k < 3 { assert picked[k] == QuestionIds[8 + k]; } else { assert picked[k] == QuestionIds[20 + k]; }
    }
  }

  /** The basics selection is the two basics runs of the catalogue: 20 questions with the listed ids, in list order. */
  lemma BasicsSelection()
    ensures GetQuizzesByCategory("basics") == Quizzes[..8] + Quizzes[11..23]
    ensures |GetQuizzesByCategory("basics")| == 20
    ensures Ids(GetQuizzesByCategory("basics")) == BasicsIds
  {
    CatalogueRuns();
    BasicsRuns();
    FilterRuns(Quizzes[..8], Quizzes[8..11], Quizzes[11..23], Quizzes[23..28], InBasics, true);
    BasicsRunIds();
  }

  /** Every category other than `'basics'` selects the two advanced runs: 8 questions with the listed ids. */
  lemma AdvancedSelection(category: string)
    requires category != "basics"
    ensures GetQuizzesByCategory(category) == Quizzes[8..11] + Quizzes[23..28]
    ensures |GetQuizzesByCategory(category)| == 8
    ensures Ids(GetQuizzesByCategory(category)) == AdvancedIds
  {
    CatalogueRuns();
    AdvancedRuns();
    FilterRuns(Quizzes[..8], Quizzes[8..11], Quizzes[11..23], Quizzes[23..28], InAdvanced, false);
    AdvancedRunIds();
  }

  /**
    The two category selections partition the catalogue: every question is in
    exactly one of them, and their sizes add up to the catalogue's.
   */
  lemma CategoriesPartitionCatalogue()
    ensures forall i :: 0 <= i < |Quizzes| ==>
      (Quizzes[i] in GetQuizzesByCategory("basics")) != (Quizzes[i] in GetQuizzesByCategory("advanced"))
    ensures |GetQuizzesByCategory("basics")| + |GetQuizzesByCategory("advanced")| == |Quizzes|
  {
    CategoryIdsPartitionCatalogue();
    FilterPartition(Quizzes, InBasics, InAdvanced);
  }
}
