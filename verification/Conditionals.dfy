/**
 Conditional blocks of site templates. A template is a sequence of tokens: text without
 tag syntax, opening tags and closing tags. The rewriting loop replaces one block per
 step, at most 50 times; on well-nested templates it is proved to agree with the meaning
 of the nested blocks.
*/
module Conditionals {
  type Flag = string

  datatype Token = Text(text: string) | Open(flag: Flag) | Close(flag: Flag)

  type Vars = map<Flag, string>

  predicate Keep(vars: Vars, f: Flag) {
    f in vars && vars[f] != "" && vars[f] != "false"
  }

  // ---- The pattern ----

  /** The pattern matches from i up to and including j: an opening tag, content without
      another opening tag, and the first closing tag of the same flag. */
  predicate IsMatch(ts: seq<Token>, i: nat, j: nat) {
    && i < j < |ts|
    && ts[i].Open? && ts[j] == Close(ts[i].flag)
    && forall k :: i < k < j ==> !ts[k].Open? && ts[k] != ts[j]
  }

  datatype Match = NoMatch | Match(start: nat, end: nat)

  /** The first closing tag of f at or after k, unless an opening tag comes first. */
  function FindClose(ts: seq<Token>, f: Flag, k: nat): Match
    requires k <= |ts|
    decreases |ts| - k
  {
    if k == |ts| || ts[k].Open? then NoMatch
    else if ts[k] == Close(f) then Match(k, k)
    else FindClose(ts, f, k + 1)
  }

  /** The leftmost match, as a regular expression search from position i finds it. */
  function Find(ts: seq<Token>, i: nat): Match
    requires i <= |ts|
    decreases |ts| - i
  {
    if i == |ts| then NoMatch
    else if ts[i].Open? && FindClose(ts, ts[i].flag, i + 1).Match? then
      Match(i, FindClose(ts, ts[i].flag, i + 1).start)
    else Find(ts, i + 1)
  }

  lemma {:induction false} FindCloseExact(ts: seq<Token>, i: nat, k: nat)
    requires i < k <= |ts| && ts[i].Open?
    requires forall m :: i < m < k ==> !ts[m].Open? && ts[m] != Close(ts[i].flag)
    ensures var r := FindClose(ts, ts[i].flag, k);
            if r.Match? then IsMatch(ts, i, r.start) else forall j: nat :: !IsMatch(ts, i, j)
    decreases |ts| - k
  {
    if k < |ts| && !ts[k].Open? && ts[k] != Close(ts[i].flag) {
      FindCloseExact(ts, i, k + 1);
    }
  }

  /** The search finds a match exactly when there is one, and then the leftmost; a position
      starts at most one match. */
  lemma {:induction false} FindIsLeftmost(ts: seq<Token>, i: nat)
    requires i <= |ts|
    ensures match Find(ts, i)
            case Match(a, b) => i <= a && IsMatch(ts, a, b) && forall k: nat, j: nat :: i <= k < a ==> !IsMatch(ts, k, j)
            case NoMatch => forall k: nat, j: nat :: i <= k ==> !IsMatch(ts, k, j)
    decreases |ts| - i
  {
    if i < |ts| {
      if ts[i].Open? {
        FindCloseExact(ts, i, i + 1);
      }
      FindIsLeftmost(ts, i + 1);
    }
  }

  lemma MatchUnique(ts: seq<Token>, i: nat, j: nat, k: nat)
    requires IsMatch(ts, i, j) && IsMatch(ts, i, k)
    ensures j == k
  {
  }

  // ---- The loop ----

  /** Replacing the block from a to b by its content or by nothing. */
  function Replaced(ts: seq<Token>, vars: Vars, a: nat, b: nat): seq<Token>
    requires a < b < |ts| && ts[a].Open?
  {
    ts[..a] + (if Keep(vars, ts[a].flag) then ts[a+1..b] else []) + ts[b+1..]
  }

  function Process(ts: seq<Token>, vars: Vars, fuel: nat): seq<Token>
    decreases fuel
  {
    if fuel == 0 then ts
    else
      FindIsLeftmost(ts, 0);
      match Find(ts, 0)
      case NoMatch => ts
      case Match(a, b) => Process(Replaced(ts, vars, a, b), vars, fuel - 1)
  }

  const SAFETY_CAP: nat := 50

  predicate OccursAt(ts: seq<Token>, piece: seq<Token>, a: nat) {
    a + |piece| <= |ts| && ts[a..a + |piece|] == piece
  }

  lemma OccursExact(ts: seq<Token>, piece: seq<Token>, a: nat, k: nat)
    requires OccursAt(ts, piece, a) && k < |piece|
    ensures a + k < |ts| && ts[a + k] == piece[k]
  {
    assert ts[a..a + |piece|][k] == ts[a + k];
  }

  /** A string replacement edits the first place where the matched tokens occur.
      That is the match itself: an earlier occurrence would be an earlier match. */
  lemma FirstOccurrenceIsTheMatch(ts: seq<Token>, a: nat, b: nat, c: nat)
    requires Find(ts, 0) == Match(a, b) && a < b < |ts| && OccursAt(ts, ts[a..b+1], c)
    ensures a <= c
  {
    hide Find, FindClose, IsMatch, OccursAt;
    FindIsLeftmost(ts, 0);
    OccurrenceIsMatch(ts, a, b, c);
  }

  lemma OccurrenceIsMatch(ts: seq<Token>, a: nat, b: nat, c: nat)
    requires IsMatch(ts, a, b) && OccursAt(ts, ts[a..b+1], c)
    ensures IsMatch(ts, c, c + (b - a))
  {
    hide OccursAt;
    var piece, d := ts[a..b+1], c + (b - a);
    OccursExact(ts, piece, c, b - a);
    assert d < |ts|;
    forall k | c <= k <= d
      ensures ts[k] == ts[a + (k - c)]
    {
      OccursExact(ts, piece, c, k - c);
    }
    assert ts[c] == ts[a] && ts[d] == ts[b];
    forall k | c < k < d
      ensures !ts[k].Open? && ts[k] != ts[d]
    {
      var m := a + (k - c);
      assert a < m < b && ts[k] == ts[m];
    }
  }

  /** The first position where `piece` occurs, given that it occurs at `known`. */
  method FirstOccurrence(ts: seq<Token>, piece: seq<Token>, ghost known: nat) returns (c: nat)
    requires OccursAt(ts, piece, known)
    ensures OccursAt(ts, piece, c)
    ensures forall a: nat :: a < c ==> !OccursAt(ts, piece, a)
  {
    c := 0;
    while !OccursAt(ts, piece, c)
      invariant c <= known
      invariant forall a: nat :: a < c ==> !OccursAt(ts, piece, a)
      decreases known - c
    {
      c := c + 1;
    }
  }

  lemma ProcessStep(ts: seq<Token>, vars: Vars, fuel: nat)
    requires fuel > 0
    ensures match Find(ts, 0)
            case NoMatch => Process(ts, vars, fuel) == ts
            case Match(a, b) =>
              && a < b < |ts| && ts[a].Open?
              && Process(ts, vars, fuel) == Process(Replaced(ts, vars, a, b), vars, fuel - 1)
  {
    FindIsLeftmost(ts, 0);
  }

  method ProcessConditionals(html: seq<Token>, vars: Vars) returns (result: seq<Token>)
    ensures result == Process(html, vars, SAFETY_CAP)
  {
    hide Find, IsMatch, OccursAt, Process, FindClose;
    result := html;
    var safety := 0;
    while safety < SAFETY_CAP
      invariant 0 <= safety <= SAFETY_CAP
      invariant Process(result, vars, SAFETY_CAP - safety) == Process(html, vars, SAFETY_CAP)
    {
      ProcessStep(result, vars, SAFETY_CAP - safety);
      safety := safety + 1;
      match Find(result, 0) {
        case NoMatch =>
          return;
        case Match(a, b) =>
          result := ReplaceFirst(result, vars, a, b);
      }
    }
    ProcessNoFuel(result, vars);
  }

  lemma ProcessNoFuel(ts: seq<Token>, vars: Vars)
    ensures Process(ts, vars, 0) == ts
  {
  }

  /** The matched tokens give way to their content or to nothing, where they first occur. */
  method ReplaceFirst(ts: seq<Token>, vars: Vars, a: nat, b: nat) returns (r: seq<Token>)
    requires Find(ts, 0) == Match(a, b) && a < b < |ts| && ts[a].Open?
    ensures r == Replaced(ts, vars, a, b)
  {
    hide Find, IsMatch, FindClose;
    var fullMatch, content := ts[a..b+1], ts[a+1..b];
    assert OccursAt(ts, fullMatch, a);
    var at := FirstOccurrence(ts, fullMatch, a);
    FirstOccurrenceIsTheMatch(ts, a, b, at);
    assert at == a;
    r := ts[..at] + (if Keep(vars, ts[a].flag) then content else []) + ts[at+|fullMatch|..];
  }

  // ---- What a template means ----

  /** A well-nested template. */
  datatype Tree = Nil | TextThen(text: string, rest: Tree) | Block(flag: Flag, body: Tree, rest: Tree)

  function Render(t: Tree): seq<Token> {
    match t
    case Nil => []
    case TextThen(s, rest) => [Text(s)] + Render(rest)
    case Block(f, body, rest) => [Open(f)] + Render(body) + [Close(f)] + Render(rest)
  }

  /** The meaning: a block is its evaluated body when its flag is set, and nothing otherwise. */
  function Eval(t: Tree, vars: Vars): seq<Token> {
    match t
    case Nil => []
    case TextThen(s, rest) => [Text(s)] + Eval(rest, vars)
    case Block(f, body, rest) => (if Keep(vars, f) then Eval(body, vars) else []) + Eval(rest, vars)
  }

  function Blocks(t: Tree): nat {
    match t
    case Nil => 0
    case TextThen(_, rest) => Blocks(rest)
    case Block(_, body, rest) => 1 + Blocks(body) + Blocks(rest)
  }

  function Append(t: Tree, u: Tree): Tree {
    match t
    case Nil => u
    case TextThen(s, rest) => TextThen(s, Append(rest, u))
    case Block(f, body, rest) => Block(f, body, Append(rest, u))
  }

  lemma Associate(a: seq<Token>, b: seq<Token>, c: seq<Token>)
    ensures a + b + c == a + (b + c)
  {
  }

  lemma {:induction false} AppendRenders(t: Tree, u: Tree)
    ensures Render(Append(t, u)) == Render(t) + Render(u)
  {
    match t
    case Nil =>
    case TextThen(s, rest) =>
      AppendRenders(rest, u);
      Associate([Text(s)], Render(rest), Render(u));
    case Block(f, body, rest) =>
      AppendRenders(rest, u);
      Associate([Open(f)] + Render(body) + [Close(f)], Render(rest), Render(u));
  }

  lemma {:induction false} AppendMeans(t: Tree, u: Tree, vars: Vars)
    ensures Eval(Append(t, u), vars) == Eval(t, vars) + Eval(u, vars)
    ensures Blocks(Append(t, u)) == Blocks(t) + Blocks(u)
  {
    hide Keep;
    match t
    case Nil =>
    case TextThen(s, rest) =>
      AppendMeans(rest, u, vars);
      Associate([Text(s)], Eval(rest, vars), Eval(u, vars));
    case Block(f, body, rest) =>
      AppendMeans(rest, u, vars);
      Associate(if Keep(vars, f) then Eval(body, vars) else [], Eval(rest, vars), Eval(u, vars));
  }

  /** The leftmost block without inner blocks, replaced by its body or by nothing. */
  function Reduce(t: Tree, vars: Vars): Tree
    requires Blocks(t) > 0
  {
    match t
    case TextThen(s, rest) => TextThen(s, Reduce(rest, vars))
    case Block(f, body, rest) =>
      if Blocks(body) > 0 then Block(f, Reduce(body, vars), rest)
      else if Keep(vars, f) then Append(body, rest)
      else rest
  }

  lemma {:induction false} ReduceKeepsMeaning(t: Tree, vars: Vars)
    requires Blocks(t) > 0
    ensures Eval(Reduce(t, vars), vars) == Eval(t, vars)
    ensures Blocks(Reduce(t, vars)) == Blocks(t) - 1
  {
    match t
    case TextThen(s, rest) => ReduceKeepsMeaning(rest, vars);
    case Block(f, body, rest) =>
      if Blocks(body) > 0 {
        ReduceKeepsMeaning(body, vars);
      } else {
        AppendMeans(body, rest, vars);
      }
  }

  /** Where the leftmost block without inner blocks starts and ends in the rendering. */
  function Leaf(t: Tree): (nat, nat)
    requires Blocks(t) > 0
  {
    match t
    case TextThen(_, rest) => (1 + Leaf(rest).0, 1 + Leaf(rest).1)
    case Block(_, body, _) =>
      if Blocks(body) > 0 then (1 + Leaf(body).0, 1 + Leaf(body).1) else (0, |Render(body)| + 1)
  }

  lemma {:induction false} NoBlocksMeansText(t: Tree, vars: Vars)
    requires Blocks(t) == 0
    ensures forall k :: 0 <= k < |Render(t)| ==> Render(t)[k].Text?
    ensures Eval(t, vars) == Render(t)
  {
    match t
    case Nil =>
    case TextThen(s, rest) => NoBlocksMeansText(rest, vars);
  }

  /** Matching is local: a match inside the middle part is a match of the whole, and the
      other way round as long as it ends there. */
  lemma MatchShift(pre: seq<Token>, ts: seq<Token>, post: seq<Token>, i: nat, j: nat)
    requires j < |ts|
    ensures IsMatch(pre + ts + post, |pre| + i, |pre| + j) <==> IsMatch(ts, i, j)
  {
    var all := pre + ts + post;
    assert forall k :: 0 <= k < |ts| ==> all[|pre| + k] == ts[k];
    if IsMatch(all, |pre| + i, |pre| + j) {
      forall k | i < k < j
        ensures !ts[k].Open? && ts[k] != ts[j]
      {
        assert !all[|pre| + k].Open?;
      }
    }
  }

  lemma ReplacedShift(pre: seq<Token>, ts: seq<Token>, post: seq<Token>, vars: Vars, a: nat, b: nat)
    requires a < b < |ts| && ts[a].Open?
    ensures (pre + ts + post)[|pre| + a] == ts[a]
    ensures Replaced(pre + ts + post, vars, |pre| + a, |pre| + b) == pre + Replaced(ts, vars, a, b) + post
  {
    var all := pre + ts + post;
    assert all[..|pre| + a] == pre + ts[..a];
    assert all[|pre| + a + 1..|pre| + b] == ts[a+1..b];
    assert all[|pre| + b + 1..] == ts[b+1..] + post;
  }

  /** a..b is a match of ts, and replacing it gives `after`. */
  ghost predicate StepTo(ts: seq<Token>, vars: Vars, a: nat, b: nat, after: seq<Token>) {
    IsMatch(ts, a, b) && Replaced(ts, vars, a, b) == after
  }

  lemma StepShift(pre: seq<Token>, ts: seq<Token>, post: seq<Token>, vars: Vars, a: nat, b: nat, after: seq<Token>)
    requires StepTo(ts, vars, a, b, after)
    ensures StepTo(pre + ts + post, vars, |pre| + a, |pre| + b, pre + after + post)
  {
    MatchShift(pre, ts, post, a, b);
    ReplacedShift(pre, ts, post, vars, a, b);
  }

  lemma LeafStep(f: Flag, body: Tree, rest: Tree, vars: Vars)
    requires Blocks(body) == 0
    ensures StepTo(Render(Block(f, body, rest)), vars, 0, |Render(body)| + 1,
                   (if Keep(vars, f) then Render(body) else []) + Render(rest))
  {
    NoBlocksMeansText(body, vars);
    TextIsMatch(f, Render(body), Render(rest), vars);
  }

  lemma TextIsMatch(f: Flag, inner: seq<Token>, after: seq<Token>, vars: Vars)
    requires forall k :: 0 <= k < |inner| ==> inner[k].Text?
    ensures StepTo([Open(f)] + inner + [Close(f)] + after, vars, 0, |inner| + 1,
                   (if Keep(vars, f) then inner else []) + after)
  {
    var n, ts := |inner|, [Open(f)] + inner + [Close(f)] + after;
    assert ts[..0] == [] && ts[1..n+1] == inner && ts[n+2..] == after;
    forall k | 0 < k < n + 1
      ensures !ts[k].Open? && ts[k] != ts[n + 1]
    {
      assert ts[k] == inner[k-1];
    }
  }

  /** The leaf block is a match, and replacing it renders the reduced tree. */
  lemma {:induction false} LeafIsMatch(t: Tree, vars: Vars)
    requires Blocks(t) > 0
    ensures StepTo(Render(t), vars, Leaf(t).0, Leaf(t).1, Render(Reduce(t, vars)))
  {
    hide StepTo, Append, Eval;
    match t
    case TextThen(s, rest) =>
      LeafIsMatch(rest, vars);
      StepShift([Text(s)], Render(rest), [], vars, Leaf(rest).0, Leaf(rest).1, Render(Reduce(rest, vars)));
      assert [Text(s)] + Render(rest) + [] == Render(t);
      assert [Text(s)] + Render(Reduce(rest, vars)) + [] == Render(Reduce(t, vars));
    case Block(f, body, rest) =>
      if Blocks(body) > 0 {
        LeafIsMatch(body, vars);
        InnerStep(f, body, rest, Reduce(body, vars), vars, Leaf(body).0, Leaf(body).1);
      } else {
        LeafStep(f, body, rest, vars);
        AppendRenders(body, rest);
        assert [] + Render(rest) == Render(rest);
      }
  }

  lemma InnerStep(f: Flag, body: Tree, rest: Tree, reduced: Tree, vars: Vars, a: nat, b: nat)
    requires StepTo(Render(body), vars, a, b, Render(reduced))
    ensures StepTo(Render(Block(f, body, rest)), vars, 1 + a, 1 + b, Render(Block(f, reduced, rest)))
  {
    hide StepTo;
    var post := [Close(f)] + Render(rest);
    StepShift([Open(f)], Render(body), post, vars, a, b, Render(reduced));
    assert [Open(f)] + Render(body) + post == Render(Block(f, body, rest));
    assert [Open(f)] + Render(reduced) + post == Render(Block(f, reduced, rest));
  }

  lemma LeafBounds(t: Tree)
    requires Blocks(t) > 0
    ensures Leaf(t).0 < |Render(t)| && Render(t)[Leaf(t).0].Open?
  {
    LeafIsMatch(t, map[]);
  }

  /** Nothing before the leaf block matches: every earlier opening tag has another opening
      tag before its own closing tag. */
  lemma {:induction false} LeafIsFirst(t: Tree, k: nat, j: nat)
    requires Blocks(t) > 0 && k < Leaf(t).0
    ensures !IsMatch(Render(t), k, j)
  {
    LeafBounds(t);
    if IsMatch(Render(t), k, j) {
      assert j < Leaf(t).0;
      BeforeLeafNoClose(t, j);
    }
  }

  /** Every token before the leaf block is text or an opening tag. */
  lemma {:induction false} BeforeLeafNoClose(t: Tree, k: nat)
    requires Blocks(t) > 0 && k < Leaf(t).0
    ensures k < |Render(t)| && !Render(t)[k].Close?
  {
    LeafBounds(t);
    match t
    case TextThen(s, rest) =>
      if k > 0 {
        BeforeLeafNoClose(rest, k - 1);
      }
    case Block(f, body, rest) =>
      if k > 0 {
        LeafBounds(body);
        BeforeLeafNoClose(body, k - 1);
        assert Render(t)[k] == ([Open(f)] + Render(body))[k];
      }
  }

  /** One step of the loop on a well-nested template with a block left is Reduce. */
  lemma StepIsReduce(t: Tree, vars: Vars)
    requires Blocks(t) > 0
    ensures Find(Render(t), 0) == Match(Leaf(t).0, Leaf(t).1)
    ensures IsMatch(Render(t), Leaf(t).0, Leaf(t).1)
    ensures Replaced(Render(t), vars, Leaf(t).0, Leaf(t).1) == Render(Reduce(t, vars))
  {
    var ts, a, b := Render(t), Leaf(t).0, Leaf(t).1;
    LeafIsMatch(t, vars);
    FindIsLeftmost(ts, 0);
    var m := Find(ts, 0);
    assert m.Match? && m.start <= a;
    if m.start < a {
      LeafIsFirst(t, m.start, m.end);
    } else {
      MatchUnique(ts, a, b, m.end);
    }
  }

  lemma NoBlocksNoMatch(t: Tree)
    requires Blocks(t) == 0
    ensures Find(Render(t), 0) == NoMatch
  {
    NoBlocksMeansText(t, map[]);
    FindIsLeftmost(Render(t), 0);
  }

  /** The main result: on every well-nested template, whatever the number of steps allowed,
      the loop returns the rendering of a well-nested template with the same meaning and
      with as many blocks fewer as steps were allowed. */
  lemma {:induction false} ProcessKeepsMeaning(t: Tree, vars: Vars, fuel: nat) returns (u: Tree)
    ensures Process(Render(t), vars, fuel) == Render(u)
    ensures Eval(u, vars) == Eval(t, vars)
    ensures Blocks(u) == if Blocks(t) <= fuel then 0 else Blocks(t) - fuel
    decreases fuel
  {
    if fuel == 0 {
      u := t;
    } else if Blocks(t) == 0 {
      NoBlocksNoMatch(t);
      u := t;
    } else {
      StepIsReduce(t, vars);
      ReduceKeepsMeaning(t, vars);
      u := ProcessKeepsMeaning(Reduce(t, vars), vars, fuel - 1);
    }
  }

  ghost predicate TagFree(ts: seq<Token>) {
    forall k :: 0 <= k < |ts| ==> ts[k].Text?
  }

  lemma {:induction false} TagFreeMeansNoBlocks(t: Tree)
    ensures TagFree(Render(t)) <==> Blocks(t) == 0
  {
    match t
    case Nil =>
    case TextThen(s, rest) =>
      TagFreeMeansNoBlocks(rest);
      assert forall k :: 0 <= k < |Render(rest)| ==> Render(t)[k + 1] == Render(rest)[k];
    case Block(f, body, rest) =>
      assert Render(t)[0] == Open(f);
  }

  /** With the cap of 50: the result is the meaning of the template, free of tags, exactly
      when the template has at most 50 blocks. */
  lemma ResultIsMeaning(t: Tree, vars: Vars)
    ensures Blocks(t) <= 50 ==> Process(Render(t), vars, SAFETY_CAP) == Eval(t, vars)
    ensures TagFree(Process(Render(t), vars, SAFETY_CAP)) <==> Blocks(t) <= 50
  {
    var u := ProcessKeepsMeaning(t, vars, SAFETY_CAP);
    TagFreeMeansNoBlocks(u);
    if Blocks(u) == 0 {
      NoBlocksMeansText(u, vars);
    }
  }

  // ---- Which texts remain ----

  /** The texts all of whose enclosing flags are given a value that is neither empty nor the
      word false. */
  function Visible(t: Tree, vars: Vars, enclosing: seq<Flag>): seq<Token> {
    match t
    case Nil => []
    case TextThen(s, rest) =>
      (if forall f :: f in enclosing ==> f in vars && vars[f] !in {"", "false"} then [Text(s)] else [])
      + Visible(rest, vars, enclosing)
    case Block(f, body, rest) => Visible(body, vars, enclosing + [f]) + Visible(rest, vars, enclosing)
  }

  lemma {:induction false} VisibleIsMeaning(t: Tree, vars: Vars, enclosing: seq<Flag>)
    ensures Visible(t, vars, enclosing)
         == if forall f :: f in enclosing ==> f in vars && vars[f] !in {"", "false"} then Eval(t, vars) else []
  {
    match t
    case Nil =>
    case TextThen(s, rest) =>
      VisibleIsMeaning(rest, vars, enclosing);
    case Block(f, body, rest) =>
      VisibleIsMeaning(body, vars, enclosing + [f]);
      VisibleIsMeaning(rest, vars, enclosing);
      assert forall g :: g in enclosing + [f] <==> g in enclosing || g == f;
  }

  /** Of every well-nested template with at most 50 blocks, exactly the texts remain, in order,
      all of whose enclosing flags are set. */
  lemma ResultIsVisibleText(t: Tree, vars: Vars)
    requires Blocks(t) <= 50
    ensures Process(Render(t), vars, SAFETY_CAP) == Visible(t, vars, [])
  {
    hide Process, Render, Eval, Visible, Blocks;
    ResultIsMeaning(t, vars);
    VisibleIsMeaning(t, vars, []);
  }
}
