/**
 Reconciling a headless turn with the durable transcript (omnigent/chat.py): a
 newest-first walk over a bounded window, against the text of the current turn taken
 from the whole transcript. The server's item list is a sequence, oldest first.
 */
module Reconcile {
  import opened Common

  /** A content part; `isText` is type "output_text" or "text". */
  datatype Part = NotADict | Part(isText: bool, text: Option<string>)

  datatype Role = User | Assistant | OtherRole

  /** `content` is absent when it is not a list. */
  datatype Item = NotAMessage | Message(role: Role, completed: bool, content: Option<seq<Part>>)

  predicate IsUser(i: Item) {
    i.Message? && i.role == User
  }

  predicate IsAnswer(i: Item) {
    i.Message? && i.role == Assistant && i.completed
  }

  // ------------------------------------------------------- text of a list of items

  function PartTexts(parts: seq<Part>): (r: seq<string>) {
    if parts == [] then []
    else PartTexts(parts[..|parts| - 1]) + PartText(parts[|parts| - 1])
  }

  function ItemTexts(i: Item): (r: seq<string>) {
    if i.Message? && i.content.Some? then PartTexts(i.content.value) else []
  }

  function Texts(items: seq<Item>): (r: seq<string>) {
    if items == [] then [] else Texts(items[..|items| - 1]) + ItemTexts(items[|items| - 1])
  }

  function Concat(parts: seq<string>): (r: string) {
    if parts == [] then "" else Concat(parts[..|parts| - 1]) + parts[|parts| - 1]
  }

  function Joined(parts: seq<string>): (r: Option<string>) {
    if parts == [] then None else Some(Concat(parts))
  }

  lemma {:induction false} TextsStep(items: seq<Item>, i: nat)
    requires i < |items|
    ensures Texts(items[..i + 1]) == Texts(items[..i]) + ItemTexts(items[i])
  {
    assert items[..i + 1][..i] == items[..i];
  }

  function PartText(p: Part): (r: seq<string>) {
    if p.Part? && p.isText && p.text.Some? then [p.text.value] else []
  }

  lemma {:induction false} PartTextsStep(before: seq<string>, parts: seq<Part>, k: nat)
    requires k < |parts|
    ensures before + PartTexts(parts[..k + 1]) == before + PartTexts(parts[..k]) + PartText(parts[k])
  {
    assert parts[..k + 1][..k] == parts[..k];
    Assoc(before, PartTexts(parts[..k]), PartText(parts[k]));
  }

  /** The inner loop: append a message's text parts. */
  method AppendTexts(before: seq<string>, content: seq<Part>) returns (parts: seq<string>)
    ensures parts == before + PartTexts(content)
  {
    parts := before;
    for k := 0 to |content|
      invariant parts == before + PartTexts(content[..k])
    {
      PartTextsStep(before, content, k);
      var part := content[k];
      if part.Part? && part.isText && part.text.Some? {
        parts := parts + [part.text.value];
      }
    }
    assert content[..|content|] == content;
  }

  method ResponseOutputText(output: seq<Item>) returns (r: Option<string>)
    ensures r == Joined(Texts(output))
  {
    var parts: seq<string> := [];
    for i := 0 to |output|
      invariant parts == Texts(output[..i])
    {
      TextsStep(output, i);
      if output[i].Message? && output[i].content.Some? {
        parts := AppendTexts(parts, output[i].content.value);
      }
    }
    assert output[..|output|] == output;
    r := Joined(parts);
  }

  // ------------------------------------------------------ the current turn's text

  function Answer(i: Item): (r: seq<Item>) {
    if IsAnswer(i) then [i] else []
  }

  /** The completed assistant messages, in order. */
  function Answers(items: seq<Item>): (r: seq<Item>) {
    if items == [] then [] else Answer(items[0]) + Answers(items[1..])
  }

  /** The reference definition: all completed assistant text, in chronological order. */
  function TextOf(items: seq<Item>): (r: Option<string>) {
    Joined(Texts(Answers(items)))
  }

  /** Where the current turn starts: just past the last user message. */
  function TurnStart(t: seq<Item>): (n: nat)
    ensures n <= |t|
    ensures n > 0 ==> IsUser(t[n - 1])
    ensures forall i :: n <= i < |t| ==> !IsUser(t[i])
  {
    if t == [] then 0 else if IsUser(t[|t| - 1]) then |t| else TurnStart(t[..|t| - 1])
  }

  function CurrentTurn(t: seq<Item>): (r: seq<Item>) {
    t[TurnStart(t)..]
  }

  function WindowStart(t: seq<Item>, limit: nat): (n: nat)
    ensures n <= |t|
  {
    if |t| <= limit then 0 else |t| - limit
  }

  /** Where the walk stops: at the current turn's start or at the edge of the window. */
  function WalkStart(t: seq<Item>, limit: nat): (n: nat)
    ensures n <= |t|
  {
    if TurnStart(t) < WindowStart(t, limit) then WindowStart(t, limit) else TurnStart(t)
  }

  // ------------------------------------------------------------------- the walk

  function Reverse<T>(s: seq<T>): (r: seq<T>)
    ensures |r| == |s| && forall i :: 0 <= i < |s| ==> r[i] == s[|s| - 1 - i]
  {
    if s == [] then [] else Reverse(s[1..]) + [s[0]]
  }

  /** `list_items(limit=..., order="desc")`. */
  function NewestFirst(t: seq<Item>, limit: nat): (r: seq<Item>)
    ensures |r| == |t| - WindowStart(t, limit)
  {
    Reverse(t[WindowStart(t, limit)..])
  }

  lemma {:induction false} AnswersConcat(a: seq<Item>, b: seq<Item>)
    ensures Answers(a + b) == Answers(a) + Answers(b)
  {
    if a == [] {
      assert a + b == b;
    } else {
      AnswersConcat(a[1..], b);
      assert (a + b)[0] == a[0] && (a + b)[1..] == a[1..] + b;
      Assoc(Answer(a[0]), Answers(a[1..]), Answers(b));
    }
  }

  /** Selecting answers and reversing commute. */
  lemma {:induction false} ReverseAnswers(s: seq<Item>)
    ensures Reverse(Answers(s)) == Answers(Reverse(s))
  {
    if s != [] {
      ReverseAnswers(s[1..]);
      AnswersConcat(Reverse(s[1..]), [s[0]]);
      ReverseCons(s[0], Answers(s[1..]));
      assert Answers([s[0]]) == Answer(s[0]);
    }
  }

  lemma {:induction false} ReverseCons(x: Item, rest: seq<Item>)
    ensures Reverse(Answer(x) + rest) == Reverse(rest) + Answer(x)
  {
    assert IsAnswer(x) ==> (Answer(x) + rest)[1..] == rest;
    assert !IsAnswer(x) ==> Answer(x) + rest == rest;
  }

  lemma {:induction false} ReverseConcat(a: seq<Item>, b: seq<Item>)
    ensures Reverse(a + b) == Reverse(b) + Reverse(a)
  {
    if a == [] {
      assert a + b == b;
    } else {
      ReverseConcat(a[1..], b);
      assert (a + b)[0] == a[0] && (a + b)[1..] == a[1..] + b;
      Assoc(Reverse(b), Reverse(a[1..]), [a[0]]);
    }
  }

  lemma {:induction false} ReverseTwice(s: seq<Item>)
    ensures Reverse(Reverse(s)) == s
  {
    if s != [] {
      ReverseTwice(s[1..]);
      ReverseConcat(Reverse(s[1..]), [s[0]]);
      assert Reverse([s[0]]) == [s[0]] && [s[0]] + s[1..] == s;
    }
  }

  lemma {:induction false} ReversePrefix(w: seq<Item>, i: nat)
    requires i <= |w|
    ensures Reverse(Reverse(w)[..i]) == w[|w| - i..]
  {
    var front, back := w[..|w| - i], w[|w| - i..];
    assert w == front + back;
    ReverseConcat(front, back);
    assert (Reverse(back) + Reverse(front))[..i] == Reverse(back);
    ReverseTwice(back);
  }

  lemma {:induction false} ReversedPrefix(t: seq<Item>, limit: nat, i: nat)
    requires i <= |NewestFirst(t, limit)|
    ensures Reverse(NewestFirst(t, limit)[..i]) == t[|t| - i..]
    ensures forall k :: WindowStart(t, limit) <= k < |t| ==> t[k] == NewestFirst(t, limit)[|t| - 1 - k]
  {
    var w := t[WindowStart(t, limit)..];
    ReversePrefix(w, i);
    assert w[|w| - i..] == t[|t| - i..];
  }

  lemma {:induction false} StopsAtTurnStart(t: seq<Item>, n: nat)
    requires 0 < n <= |t| && IsUser(t[n - 1]) && forall i :: n <= i < |t| ==> !IsUser(t[i])
    ensures TurnStart(t) == n
  {
  }

  /** Stopping the walk after `i` items, at a user message or the window's edge. */
  lemma {:induction false} WalkEnds(t: seq<Item>, limit: nat, i: nat)
    requires i <= |NewestFirst(t, limit)| && forall j :: 0 <= j < i ==> !IsUser(NewestFirst(t, limit)[j])
    requires i < |NewestFirst(t, limit)| ==> IsUser(NewestFirst(t, limit)[i])
    ensures Reverse(NewestFirst(t, limit)[..i]) == t[WalkStart(t, limit)..]
  {
    ReversedPrefix(t, limit, i);
    assert forall k :: |t| - i <= k < |t| ==> !IsUser(t[k]);
    if i < |NewestFirst(t, limit)| {
      assert IsUser(t[|t| - i - 1]);
      StopsAtTurnStart(t, |t| - i);
    }
  }

  /**
   The newest-first walk over the window. An unreachable item list gives no text;
   otherwise the text is that of the part of the current turn inside the window.
   */
  method PersistedTurnText(transcript: seq<Item>, limit: nat, reachable: bool) returns (r: Option<string>)
    ensures !reachable ==> r == None
    ensures reachable ==> r == TextOf(transcript[WalkStart(transcript, limit)..])
  {
    if !reachable {
      return None;
    }
    var recent := NewestFirst(transcript, limit);
    var answers: seq<Item> := [];
    var i := 0;
    while i < |recent| && !IsUser(recent[i])
      invariant 0 <= i <= |recent|
      invariant forall j :: 0 <= j < i ==> !IsUser(recent[j])
      invariant answers == Answers(recent[..i])
    {
      AnswersStep(recent, i);
      if IsAnswer(recent[i]) {
        answers := answers + [recent[i]];
      }
      i := i + 1;
    }
    WalkEnds(transcript, limit, i);
    ReverseAnswers(recent[..i]);
    r := ResponseOutputText(Reverse(answers));
  }

  lemma {:induction false} AnswersStep(items: seq<Item>, i: nat)
    requires i < |items|
    ensures Answers(items[..i + 1]) == Answers(items[..i]) + Answer(items[i])
  {
    AnswersConcat(items[..i], [items[i]]);
    assert items[..i + 1] == items[..i] + [items[i]];
    assert Answers([items[i]]) == Answer(items[i]);
  }

  // ------------------------------------------------------------------- the laws

  /** When the turn fits in the window, the walk returns all of its text. */
  lemma {:induction false} FittingTurnIsExact(t: seq<Item>, limit: nat)
    requires |CurrentTurn(t)| <= limit
    ensures TextOf(t[WalkStart(t, limit)..]) == TextOf(CurrentTurn(t))
  {
  }

  predicate SaidByUser(i: Item) {
    i.Message? && i.role == User
  }

  /** Earlier turns have no influence: only what follows the last user message counts. */
  lemma {:induction false} HistoryIsIgnored(h: seq<Item>, g: seq<Item>, user: Item, turn: seq<Item>, limit: nat)
    requires SaidByUser(user) && forall i :: 0 <= i < |turn| ==> !SaidByUser(turn[i])
    ensures var t, s := h + [user] + turn, g + [user] + turn;
            t[WalkStart(t, limit)..] == s[WalkStart(s, limit)..] == turn[WindowStart(turn, limit)..]
  {
    WalkInTurn(h, user, turn, limit);
    WalkInTurn(g, user, turn, limit);
  }

  lemma {:induction false} WalkInTurn(h: seq<Item>, user: Item, turn: seq<Item>, limit: nat)
    requires IsUser(user) && forall i :: 0 <= i < |turn| ==> !IsUser(turn[i])
    ensures var t := h + [user] + turn; t[WalkStart(t, limit)..] == turn[WindowStart(turn, limit)..]
  {
    var t := h + [user] + turn;
    StopsAtTurnStart(t, |h| + 1);
  }

  lemma {:induction false} TextsConcat(a: seq<Item>, b: seq<Item>)
    ensures Texts(a + b) == Texts(a) + Texts(b)
  {
    if b == [] {
      assert a + b == a;
    } else {
      var front, last := b[..|b| - 1], b[|b| - 1];
      TextsConcat(a, front);
      assert (a + b)[..|a + b| - 1] == a + front && (a + b)[|a + b| - 1] == last;
      Assoc(Texts(a), Texts(front), ItemTexts(last));
    }
  }

  lemma {:induction false} ConcatConcat(a: seq<string>, b: seq<string>)
    ensures Concat(a + b) == Concat(a) + Concat(b)
  {
    if b == [] {
      assert a + b == a;
    } else {
      var front, last := b[..|b| - 1], b[|b| - 1];
      ConcatConcat(a, front);
      assert (a + b)[..|a + b| - 1] == a + front && (a + b)[|a + b| - 1] == last;
      Assoc(Concat(a), Concat(front), last);
    }
  }

  /** The part of the current turn the window cuts off. */
  function CutOff(t: seq<Item>, limit: nat): (r: seq<Item>)
  {
    t[TurnStart(t)..WalkStart(t, limit)]
  }

  lemma {:induction false} JoinedIff(lost: seq<string>, kept: seq<string>)
    ensures Joined(kept) == Joined(lost + kept) <==> lost == [] || (Concat(lost) == "" && kept != [])
  {
    ConcatConcat(lost, kept);
    Absorbs(Concat(lost), Concat(kept));
    assert lost == [] ==> lost + kept == kept;
    assert lost != [] ==> lost + kept != [];
  }

  lemma {:induction false} Absorbs(a: string, b: string)
    ensures a + b == b <==> a == ""
  {
    assert |a + b| == |a| + |b|;
  }

  lemma {:induction false} TextOfSplit(a: seq<Item>, b: seq<Item>)
    ensures TextOf(a + b) == Joined(Texts(Answers(a)) + Texts(Answers(b)))
  {
    AnswersConcat(a, b);
    TextsConcat(Answers(a), Answers(b));
  }

  /**
   Exactly when a long turn is still returned whole: the cut-off part holds no text
   part, or only empty ones while the window holds some.
   */
  lemma {:induction false} ExactIff(t: seq<Item>, limit: nat)
    ensures var lost, kept := Texts(Answers(CutOff(t, limit))), Texts(Answers(t[WalkStart(t, limit)..]));
            TextOf(t[WalkStart(t, limit)..]) == TextOf(CurrentTurn(t)) <==>
                lost == [] || (Concat(lost) == "" && kept != [])
  {
    var cut, rest := CutOff(t, limit), t[WalkStart(t, limit)..];
    assert CurrentTurn(t) == cut + rest;
    TextOfSplit(cut, rest);
    JoinedIff(Texts(Answers(cut)), Texts(Answers(rest)));
  }

  // --------------------------------------------------------------- on the fields

  /** The texts of one item, by its fields: those of the text parts of a completed assistant message. */
  function TextsFrom(i: Item): (r: seq<string>) {
    match i
    case Message(Assistant, true, Some(parts)) => TextsIn(parts)
    case _ => []
  }

  function TextsIn(parts: seq<Part>): (r: seq<string>) {
    if parts == [] then [] else
      TextsIn(parts[..|parts| - 1]) +
      match parts[|parts| - 1] {
        case Part(true, Some(text)) => [text]
        case _ => []
      }
  }

  function AllTexts(items: seq<Item>): (r: seq<string>) {
    if items == [] then [] else TextsFrom(items[0]) + AllTexts(items[1..])
  }

  lemma {:induction false} TextsInMeaning(parts: seq<Part>)
    ensures PartTexts(parts) == TextsIn(parts)
  {
    if parts != [] {
      TextsInMeaning(parts[..|parts| - 1]);
    }
  }

  lemma {:induction false} AnswerTexts(i: Item)
    ensures Texts(Answer(i)) == TextsFrom(i)
  {
    if IsAnswer(i) {
      assert Texts([i]) == Texts([i][..0]) + ItemTexts(i);
      if i.content.Some? {
        TextsInMeaning(i.content.value);
      }
    }
  }

  /** The text of a turn is that of its completed assistant messages' text parts, and of nothing else. */
  lemma {:induction false} TextsMeaning(items: seq<Item>)
    ensures Texts(Answers(items)) == AllTexts(items)
  {
    if items != [] {
      TextsMeaning(items[1..]);
      AnswerTexts(items[0]);
      TextsConcat(Answer(items[0]), Answers(items[1..]));
    }
  }

  /** A turn that fits is returned as the concatenation of those texts, and as nothing if there are none. */
  lemma {:induction false} FittingTurnText(h: seq<Item>, user: Item, turn: seq<Item>, limit: nat)
    requires SaidByUser(user) && (forall i :: 0 <= i < |turn| ==> !SaidByUser(turn[i])) && |turn| <= limit
    ensures var t := h + [user] + turn;
            TextOf(t[WalkStart(t, limit)..]) == if AllTexts(turn) == [] then None else Some(Concat(AllTexts(turn)))
  {
    HistoryIsIgnored(h, h, user, turn, limit);
    assert turn[0..] == turn;
    TextsMeaning(turn);
  }
}
