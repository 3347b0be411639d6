/** The iterative matcher: one mutable stack of frames, one array back-filled at the end. */
module TrieMatcher {
  import opened Wrappers
  import opened Percent
  import opened Paths
  import opened Patterns
  import opened Trie

  /** The match of a path against a trie: the product of the depth-first hit. */
  function Match(re: Regexes, root: Node, path: string): Option<TrieMatch> {
    match Dfs(re, QueryOf(path), Frame(root, 0, []))
    case None => None
    case Some(hit) => Some(Product(hit))
  }

  /** Rebuild from the capture list alone: newest first, first append wins. */
  method MatchOf(target: Ref, links: seq<Link>) returns (m: TrieMatch)
    ensures m == (var r := LatestFrom(links, [], []); TrieMatch(target, r.0, r.1))
  {
    var names, values := [], [];
    for k := 0 to |links|
      invariant |names| == |values|
      invariant LatestFrom(links, [], []) == LatestFrom(links[k..], names, values)
    {
      assert links[k..][1..] == links[k + 1..];
      if links[k].name !in names {
        names := names + [links[k].name];
        values := values + [links[k].value];
      }
    }
    m := TrieMatch(target, names, values);
  }

  lemma {:induction false} ValuesOfAt(links: seq<Link>, k: nat)
    requires k < |links|
    ensures |ValuesOf(links)| == |links|
    ensures ValuesOf(links)[|links| - 1 - k] == links[k].value
  {
    if |links| > 1 { ValuesOfAt(links[1..], if k > 0 then k - 1 else 0); }
  }

  /** Back-fill a preallocated array; a write below index 0 leaves the array's elements alone. */
  method MatchAt(f: Frame) returns (m: TrieMatch)
    requires f.node.target.Some?
    ensures m == Product(f)
  {
    var target := f.node.target.value;
    if f.node.names.None? {
      m := MatchOf(target, f.links);
      return;
    }
    var names := f.node.names.value;
    var len := |names|;
    if len == 0 {
      return TrieMatch(target, [], []);
    }
    var values := new string[len](_ => "");
    var i, count := len, 0;
    while count < |f.links|
      invariant 0 <= count <= |f.links| && i == len - count
      invariant forall k | 0 <= k < count && k < len :: values[len - 1 - k] == f.links[k].value
    {
      i := i - 1;
      if i >= 0 { values[i] := f.links[count].value; }
      count := count + 1;
    }
    if count != len {
      m := MatchOf(target, f.links);
      return;
    }
    forall k | 0 <= k < len ensures |ValuesOf(f.links)| == len && values[k] == ValuesOf(f.links)[k] {
      ValuesOfAt(f.links, len - 1 - k);
    }
    assert values[..] == ValuesOf(f.links);
    m := TrieMatch(target, names, values[..]);
  }

  /** The stack after a run of transitions has been pushed onto it. */
  function Pushed(re: Regexes, q: Query, f: Frame, stack: seq<Frame>, es: seq<Edge>): seq<Frame>
    requires InQuery(q, f)
  {
    stack + Offered(re, q, f, es)
  }

  lemma PushedSnoc(re: Regexes, q: Query, f: Frame, stack: seq<Frame>, es: seq<Edge>, e: Edge)
    requires InQuery(q, f)
    ensures Pushed(re, q, f, stack, es + [e]) == Pushed(re, q, f, stack, es) + Offer(re, q, f, e)
  {
    assert (es + [e])[..|es|] == es;
  }

  lemma PushedTail(re: Regexes, q: Query, f: Frame, stack: seq<Frame>)
    requires InQuery(q, f)
    ensures Pushed(re, q, f, stack, [Tail] + VariantEdges(|f.node.params|, |f.node.params|)) == stack + Offer(re, q, f, Tail)
  {
    PushedSnoc(re, q, f, stack, [], Tail);
    assert [] + [Tail] == [Tail] + VariantEdges(|f.node.params|, |f.node.params|);
  }

  lemma PushedVariant(re: Regexes, q: Query, f: Frame, stack: seq<Frame>, i: nat)
    requires InQuery(q, f) && i < |f.node.params|
    ensures Pushed(re, q, f, stack, [Tail] + VariantEdges(i, |f.node.params|))
         == Pushed(re, q, f, stack, [Tail] + VariantEdges(i + 1, |f.node.params|))
            + Offer(re, q, f, Skip(i)) + Offer(re, q, f, Take(i))
  {
    var es := [Tail] + VariantEdges(i + 1, |f.node.params|);
    PushedSnoc(re, q, f, stack, es, Skip(i));
    PushedSnoc(re, q, f, stack, es + [Skip(i)], Take(i));
    assert [Tail] + VariantEdges(i, |f.node.params|) == es + [Skip(i)] + [Take(i)];
  }

  /** Every param transition of one variant, skip first, then consume. */
  method PushVariant(re: Regexes, q: Query, f: Frame, i: nat, segment: string, decoded: string, stack: seq<Frame>)
    returns (pushed: seq<Frame>)
    requires f.index < |q.segs| && i < |f.node.params|
    requires segment == q.segs[f.index] && decoded == DecodeSegment(segment)
    ensures pushed == stack + Offer(re, q, f, Skip(i)) + Offer(re, q, f, Take(i))
  {
    pushed := stack;
    var variant := f.node.params[i];
    if variant.skip.Some? {
      pushed := pushed + [Frame(variant.skip.value, f.index, f.links)];
    }
    if |segment| > 0 && (variant.pattern.None? || re.accepts(variant.pattern.value, decoded)) {
      pushed := pushed + [Frame(variant.node, f.index + 1, [Link(variant.name, decoded)] + f.links)];
    }
  }

  /** At the end of the path only the empty wildcard and skips remain. */
  method PushAtEnd(re: Regexes, q: Query, path: string, f: Frame, stack: seq<Frame>) returns (pushed: seq<Frame>)
    requires q == QueryOf(path) && f.index == |q.segs|
    ensures pushed == Pushed(re, q, f, stack, Candidates(q, f))
  {
    pushed := stack;
    var wild := f.node.wild;
    if wild.Some? && wild.value.target.Some?
       && (path == "/" || (|path| > 1 && path[|path| - 1] == '/'))
    {
      assert DecodeAll(q.segs[f.index..]) == [];
      pushed := pushed + [Frame(wild.value, f.index, [Link(WILDCARD_NAME, "")] + f.links)];
    }
    PushedTail(re, q, f, stack);
    var i := |f.node.params|;
    while i > 0
      invariant 0 <= i <= |f.node.params|
      invariant pushed == Pushed(re, q, f, stack, [Tail] + VariantEdges(i, |f.node.params|))
    {
      i := i - 1;
      PushedVariant(re, q, f, stack, i);
      if f.node.params[i].skip.Some? {
        pushed := pushed + [Frame(f.node.params[i].skip.value, f.index, f.links)];
      }
    }
    assert Candidates(q, f) == [Tail] + VariantEdges(0, |f.node.params|);
  }

  /** The variants of a position, the head last so that it pops first. */
  method PushVariants(re: Regexes, q: Query, f: Frame, segment: string, decoded: string, stack: seq<Frame>, ghost base: seq<Frame>)
    returns (pushed: seq<Frame>)
    requires f.index < |q.segs|
    requires segment == q.segs[f.index] && decoded == DecodeSegment(segment)
    requires stack == base + Offer(re, q, f, Tail)
    ensures pushed == Pushed(re, q, f, base, [Tail] + VariantEdges(0, |f.node.params|))
  {
    pushed := stack;
    PushedTail(re, q, f, base);
    var i := |f.node.params|;
    while i > 0
      invariant 0 <= i <= |f.node.params|
      invariant pushed == Pushed(re, q, f, base, [Tail] + VariantEdges(i, |f.node.params|))
    {
      i := i - 1;
      PushedVariant(re, q, f, base, i);
      pushed := PushVariant(re, q, f, i, segment, decoded, pushed);
    }
  }

  /** Mid-path: wildcard, then the variants, then the static child. */
  method PushMidPath(re: Regexes, q: Query, f: Frame, stack: seq<Frame>) returns (pushed: seq<Frame>)
    requires f.index < |q.segs|
    ensures pushed == Pushed(re, q, f, stack, Candidates(q, f))
  {
    pushed := stack;
    var segment := q.segs[f.index];
    if f.node.wild.Some? && f.node.wild.value.target.Some? {
      var rest := RestOf(q, f.index);
      pushed := pushed + [Frame(f.node.wild.value, |q.segs|,
        if |rest| > 0 then [Link(WILDCARD_NAME, rest)] + f.links else f.links)];
    }
    var decoded := DecodeSegment(segment);
    pushed := PushVariants(re, q, f, segment, decoded, pushed, stack);
    PushedSnoc(re, q, f, stack, [Tail] + VariantEdges(0, |f.node.params|), Key(decoded));
    var child := Lookup(f.node.children, if '%' !in segment then segment else DecodeSegment(segment));
    if child.Some? {
      pushed := pushed + [Frame(child.value, f.index + 1, f.links)];
    }
  }

  method MatchPattern(re: Regexes, root: Node, path: string) returns (m: Option<TrieMatch>)
    ensures m == Match(re, root, path)
  {
    var q := QueryOf(path);
    var start := Frame(root, 0, []);
    var stack := [start];
    StackPush(re, q, [], start);
    assert [] + [start] == stack;
    while |stack| > 0
      invariant forall f | f in stack :: InQuery(q, f)
      invariant StackHit(re, q, stack) == Dfs(re, q, start)
      decreases StackSize(stack)
    {
      var f, rest := stack[|stack| - 1], stack[..|stack| - 1];
      assert stack == rest + [f];
      StackPush(re, q, rest, f);
      if f.index == |q.segs| && f.node.target.Some? {
        var product := MatchAt(f);
        return Some(product);
      }
      StackOffered(re, q, rest, f, Candidates(q, f));
      StackShrinks(re, q, rest, f);
      if f.index == |q.segs| {
        stack := PushAtEnd(re, q, path, f, rest);
      } else {
        stack := PushMidPath(re, q, f, rest);
      }
    }
    return None;
  }
}
