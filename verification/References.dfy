/** What a reference says: the name behind the `$`, the path behind its points, and the value they denote. */
module References {
  import opened Prelude
  import opened Definition
  import opened Paths
  import opened Evaluator
  import opened Walks
  import Number

  /** A reference is a `$`, a name without points, and the path behind the first point where there is one. */
  predicate Spelled(s: string, head: string, tail: Option<seq<string>>) {
    && '.' !in head
    && match tail
       case None => s == "$" + head
       case Some(path) =>
         path != [] && (forall p | p in path :: '.' !in p) && s == "$" + head + "." + Joined(path, '.')
  }

  lemma SpelledExactly(s: string, head: string, tail: Option<seq<string>>)
    requires s != [] && s[0] == '$'
    ensures Spelled(s, head, tail) <==> Head(s) == head && Tail(s) == tail
  {
    hide Joined, Split;
    var rest := s[1..];
    assert s == "$" + rest;
    FirstIndexIsFirst(rest, IsDot());
    SplitOnceOrNot(rest);
    if Spelled(s, head, tail) {
      match tail
      case None =>
        assert rest == head;
      case Some(path) =>
        assert rest == head + ['.'] + Joined(path, '.');
        SplitOnceAt(head, '.', Joined(path, '.'), IsDot());
        assert CutAt(Joined(path, '.'), '.', path);
        SplitExactly(Joined(path, '.'), '.', path);
    }
    if Head(s) == head && Tail(s) == tail && tail.Some? {
      var i := FirstIndex(rest, IsDot());
      SplitExactly(rest[i + 1..], '.', tail.value);
      assert rest == rest[..i] + ['.'] + rest[i + 1..];
    }
  }

  lemma SplitOnceOrNot(rest: string)
    ensures match SplitOnce(rest, IsDot())
            case None => '.' !in rest
            case Some((head, _)) => '.' !in head
  {
    FirstIndexIsFirst(rest, IsDot());
  }

  /** What a name without a path denotes, unless a quantifier binds it. */
  predicate Root(head: string, ctx: Context, value: Json) {
    || (head == "id" && ctx.id.Some? && value == Str(ctx.id.value))
    || (head == "entity" && value == Str(ctx.definition.entity))
    || (head == "version" && value == CountOf(ctx.definition.version))
    || (head == "from_state" && ctx.fromState.Some? && value == Str(ctx.fromState.value))
    || ((head == "state" || head == "to_state") && value == Str(ctx.toState))
    || (head == "args" && value == Obj(ctx.args))
    || (head == "fields" && value == Obj(ctx.newFields))
    || (head == "old_fields" && value == Obj(ctx.oldFields))
  }

  /** What a path below the arguments, the fields, or the fields before denotes. */
  ghost predicate BelowRoot(head: string, path: seq<string>, ctx: Context, value: Json)
    requires path != []
  {
    || (head == "args" && FoundFrom(ctx.args, path, ctx.argumentsSchema, ctx.Service(), value))
    || (head == "fields" && FoundFrom(ctx.newFields, path, Some(ctx.definition.schema), ctx.Service(), value))
    || (head == "old_fields" && FoundFrom(ctx.oldFields, path, Some(ctx.definition.schema), ctx.Service(), value))
  }

  /** The innermost binding of a name. */
  predicate Binds(b: Bindings, name: string, element: (Json, Option<Field>)) {
    b.Binding? && if b.name == name then element == (b.value, b.declared) else Binds(b.outer, name, element)
  }

  predicate Unbound(b: Bindings, name: string) {
    b.Binding? ==> b.name != name && Unbound(b.outer, name)
  }

  lemma {:induction false} BindsMeans(b: Bindings, name: string)
    ensures forall element :: b.Get(name) == Some(element) <==> Binds(b, name, element)
    ensures b.Get(name) == None <==> Unbound(b, name)
  {
    if b.Binding? {
      BindsMeans(b.outer, name);
    }
  }

  /** A binder's element, or what its path finds in it; else what the root holds. */
  ghost predicate Denotes(s: string, ctx: Context, b: Bindings, value: Json) {
    exists head, tail: Option<seq<string>> :: Spelled(s, head, tail)
      && if Unbound(b, head) then
           (match tail
            case None => Root(head, ctx, value)
            case Some(path) => BelowRoot(head, path, ctx, value))
         else
           exists element: (Json, Option<Field>) :: Binds(b, head, element)
             && match tail
                case None => value == element.0
                case Some(path) =>
                  Finds(Node(element.0, element.1, element.1.Some?), path, value, ctx.Service(), FromBinder)
  }

  /** A reference says nothing: its name is neither bound nor a root, a path is asked below a root that has
      none, or the identity is not yet known. */
  predicate Undefined(s: string, ctx: Context, b: Bindings)
    requires s != []
  {
    && Unbound(b, Head(s))
    && var head, tail := Head(s), Tail(s);
    if tail.Some? then head !in {"args", "fields", "old_fields"}
    else
      || head !in {"id", "entity", "version", "from_state", "state", "to_state", "args", "fields", "old_fields"}
      || (head == "id" && ctx.id.None?)
  }

  lemma RootMeans(head: string, tail: Option<seq<string>>, ctx: Context, s: string, value: Json)
    requires s != [] && Head(s) == head && Tail(s) == tail && tail.None?
    ensures ResolveReference(ReferenceOf(s), ctx) == Ok(Some(value)) <==> Root(head, ctx, value)
    ensures ResolveReference(ReferenceOf(s), ctx).Err? <==> Undefined(s, ctx, NoBinding)
  {
    hide Head, Tail, CountOf;
  }

  lemma BelowMeans(head: string, path: seq<string>, ctx: Context, s: string, value: Json)
    requires s != [] && Head(s) == head && Tail(s) == Some(path) && path != []
    ensures ResolveReference(ReferenceOf(s), ctx) == Ok(Some(value)) <==> BelowRoot(head, path, ctx, value)
    ensures ResolveReference(ReferenceOf(s), ctx).Err? <==> Undefined(s, ctx, NoBinding)
  {
    hide Head, Tail, CountOf, LookUp, FoundFrom;
    LookUpMeans(ctx.args, path, ctx.argumentsSchema, ctx.Service(), value);
    LookUpMeans(ctx.newFields, path, Some(ctx.definition.schema), ctx.Service(), value);
    LookUpMeans(ctx.oldFields, path, Some(ctx.definition.schema), ctx.Service(), value);
  }

  /** A reference resolves to exactly the value it denotes, and fails exactly where it says nothing. */
  lemma ResolveMeans(s: string, ctx: Context, b: Bindings, value: Json)
    requires IsReference(s)
    ensures Resolve(s, ctx, b) == Ok(Some(value)) <==> Denotes(s, ctx, b, value)
    ensures Resolve(s, ctx, b).Err? <==> Undefined(s, ctx, b)
  {
    hide Head, Tail, ReferenceOf, ResolveReference, Walk, Finds, Root, BelowRoot, Spelled, Binds, Unbound;
    var head, tail := Head(s), Tail(s);
    SpelledExactly(s, head, tail);
    forall h, t: Option<seq<string>> | Spelled(s, h, t)
      ensures h == head && t == tail
    {
      SpelledExactly(s, h, t);
    }
    BindsMeans(b, head);
    if Unbound(b, head) {
      assert Unbound(NoBinding, head) by {
        BindsMeans(NoBinding, head);
      }
      if tail.None? {
        RootMeans(head, tail, ctx, s, value);
      } else {
        BelowMeans(head, tail.value, ctx, s, value);
      }
    } else {
      var element := b.Get(head).value;
      if tail.Some? {
        WalkMeans(Node(element.0, element.1, element.1.Some?), tail.value, value, ctx.Service(), FromBinder);
      }
      assert Binds(b, head, element);
      forall other | Binds(b, head, other)
        ensures other == element
      {
      }
    }
  }
}
