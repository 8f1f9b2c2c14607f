/**
 * `objectToXML` of the content-negotiation example: a recursive serialiser
 * from a JSON-like tree to nested tags, behind an XML 1.0 declaration
 * (section 2.8 of the XML 1.0 specification). Text is written as it is,
 * without escaping.
 */
module XmlSerializer {
  import opened Optional

  /**
   * A JSON-like value. `Null` stands for both `null` and `undefined`; a
   * scalar carries the text that template interpolation gives it; an
   * object's entries are in `Object.entries` order.
   */
  datatype Value =
    | Null
    | Scalar(text: string)
    | Arr(items: seq<Value>)
    | Obj(fields: seq<(string, Value)>)

  const Declaration: string := "<?xml version=\"1.0\" encoding=\"UTF-8\"?>"
  const DefaultRoot: string := "response"
  /** The tag every array element is written under. */
  const ItemTag: string := "item"

  /** `<name>content</name>`. */
  function Element(name: string, content: string): string {
    "<" + name + ">" + content + "</" + name + ">"
  }

  /** `toXML(data, name)`. */
  function ToXml(v: Value, name: string): (r: string)
    ensures r == "" <==> v.Null?
    ensures !v.Null? ==>
      && |r| >= 2 * |name| + 5
      && r[..|name| + 2] == "<" + name + ">"
      && r[|r| - |name| - 3..] == "</" + name + ">"
    decreases v, 1
  {
    match v
    case Null => ""
    case Obj(fields) => Element(name, FieldsXml(v, 0))
    case Arr(items) => Element(name, ItemsXml(v, 0))
    case Scalar(t) => Element(name, t)
  }

  /** The children of an object from entry `i` on, each under its own key. */
  function FieldsXml(v: Value, i: nat): string
    requires v.Obj? && i <= |v.fields|
    decreases v, 0, |v.fields| - i
  {
    if i == |v.fields| then ""
    else ToXml(v.fields[i].1, v.fields[i].0) + FieldsXml(v, i + 1)
  }

  /** The elements of an array from position `i` on, each under `item`. */
  function ItemsXml(v: Value, i: nat): string
    requires v.Arr? && i <= |v.items|
    decreases v, 0, |v.items| - i
  {
    if i == |v.items| then ""
    else ToXml(v.items[i], ItemTag) + ItemsXml(v, i + 1)
  }

  /** `objectToXML(obj, rootName)`: the declaration, a line break, then the tree. */
  function ObjectToXml(v: Value, root: Option<string>): (r: string)
    ensures |Declaration| + 1 <= |r| && r[..|Declaration| + 1] == Declaration + "\n"
    ensures r[|Declaration| + 1..] == ToXml(v, root.GetOr(DefaultRoot))
  {
    Declaration + "\n" + ToXml(v, root.GetOr(DefaultRoot))
  }

  // ---------------------------------------------------------------------
  // The output as a sequence of tags
  // ---------------------------------------------------------------------

  datatype Token = Open(name: string) | Close(name: string) | Text(text: string)

  function Render(ts: seq<Token>): string
    decreases |ts|
  {
    if ts == [] then ""
    else
      var head := match ts[0]
        case Open(n) => "<" + n + ">"
        case Close(n) => "</" + n + ">"
        case Text(t) => t;
      head + Render(ts[1..])
  }

  /** The tags and text `ToXml` writes, in order. */
  function Tokens(v: Value, name: string): seq<Token>
    decreases v, 1
  {
    match v
    case Null => []
    case Obj(fields) => [Open(name)] + FieldTokens(v, 0) + [Close(name)]
    case Arr(items) => [Open(name)] + ItemTokens(v, 0) + [Close(name)]
    case Scalar(t) => [Open(name), Text(t), Close(name)]
  }

  function FieldTokens(v: Value, i: nat): seq<Token>
    requires v.Obj? && i <= |v.fields|
    decreases v, 0, |v.fields| - i
  {
    if i == |v.fields| then []
    else Tokens(v.fields[i].1, v.fields[i].0) + FieldTokens(v, i + 1)
  }

  function ItemTokens(v: Value, i: nat): seq<Token>
    requires v.Arr? && i <= |v.items|
    decreases v, 0, |v.items| - i
  {
    if i == |v.items| then []
    else Tokens(v.items[i], ItemTag) + ItemTokens(v, i + 1)
  }

  /**
   * Reads tags against a stack of open names: an opening tag pushes, a
   * closing tag must match the top and pops. None when a closing tag does
   * not match.
   */
  function Nest(ts: seq<Token>, stack: seq<string>): Option<seq<string>>
    decreases |ts|
  {
    if ts == [] then Some(stack)
    else match ts[0]
      case Open(n) => Nest(ts[1..], stack + [n])
      case Close(n) =>
        if |stack| > 0 && stack[|stack| - 1] == n then Nest(ts[1..], stack[..|stack| - 1]) else None
      case Text(_) => Nest(ts[1..], stack)
  }

  lemma {:induction false} RenderAppend(a: seq<Token>, b: seq<Token>)
    ensures Render(a + b) == Render(a) + Render(b)
    decreases |a|
  {
    if a != [] {
      assert (a + b)[1..] == a[1..] + b;
      RenderAppend(a[1..], b);
    } else {
      assert a + b == b;
    }
  }

  lemma {:induction false} NestAppend(a: seq<Token>, b: seq<Token>, stack: seq<string>)
    ensures Nest(a + b, stack) == if Nest(a, stack).Some? then Nest(b, Nest(a, stack).value) else None
    decreases |a|
  {
    if a == [] {
      assert a + b == b;
    } else {
      assert (a + b)[1..] == a[1..] + b;
      match a[0]
      case Open(n) => NestAppend(a[1..], b, stack + [n]);
      case Close(n) =>
        if |stack| > 0 && stack[|stack| - 1] == n {
          NestAppend(a[1..], b, stack[..|stack| - 1]);
        }
      case Text(_) => NestAppend(a[1..], b, stack);
    }
  }

  /** The tags describe the output exactly: rendering them gives back `ToXml`'s string. */
  lemma {:induction false} RenderTokens(v: Value, name: string)
    ensures Render(Tokens(v, name)) == ToXml(v, name)
    decreases v, 1
  {
    match v
    case Null =>
    case Scalar(t) =>
      var ts := [Open(name), Text(t), Close(name)];
      assert ts[1..][1..][1..] == [];
      assert Render(ts[1..][1..]) == "</" + name + ">";
      assert Render(ts[1..]) == t + "</" + name + ">";
    case Obj(fields) =>
      RenderFields(v, 0);
      RenderWrapped(name, FieldTokens(v, 0));
    case Arr(items) =>
      RenderItems(v, 0);
      RenderWrapped(name, ItemTokens(v, 0));
  }

  lemma RenderWrapped(name: string, inner: seq<Token>)
    ensures Render([Open(name)] + inner + [Close(name)]) == Element(name, Render(inner))
  {
    RenderAppend([Open(name)] + inner, [Close(name)]);
    RenderAppend([Open(name)], inner);
    assert Render([Close(name)]) == "</" + name + ">";
    assert Render([Open(name)]) == "<" + name + ">";
  }

  lemma {:induction false} RenderFields(v: Value, i: nat)
    requires v.Obj? && i <= |v.fields|
    ensures Render(FieldTokens(v, i)) == FieldsXml(v, i)
    decreases v, 0, |v.fields| - i
  {
    if i < |v.fields| {
      RenderTokens(v.fields[i].1, v.fields[i].0);
      RenderFields(v, i + 1);
      RenderAppend(Tokens(v.fields[i].1, v.fields[i].0), FieldTokens(v, i + 1));
    }
  }

  lemma {:induction false} RenderItems(v: Value, i: nat)
    requires v.Arr? && i <= |v.items|
    ensures Render(ItemTokens(v, i)) == ItemsXml(v, i)
    decreases v, 0, |v.items| - i
  {
    if i < |v.items| {
      RenderTokens(v.items[i], ItemTag);
      RenderItems(v, i + 1);
      RenderAppend(Tokens(v.items[i], ItemTag), ItemTokens(v, i + 1));
    }
  }

  /** Every tag `ToXml` opens it closes, under the same name and in nesting order. */
  lemma {:induction false} TokensNest(v: Value, name: string, stack: seq<string>)
    ensures Nest(Tokens(v, name), stack) == Some(stack)
    decreases v, 1
  {
    match v
    case Null =>
    case Scalar(t) =>
      var ts := [Open(name), Text(t), Close(name)];
      var inner := stack + [name];
      assert inner[..|inner| - 1] == stack;
      assert ts[1..][1..][1..] == [];
      assert Nest(ts[1..][1..], inner) == Some(stack);
      assert Nest(ts[1..], inner) == Some(stack);
    case Obj(fields) =>
      FieldTokensNest(v, 0, stack + [name]);
      NestWrapped(name, FieldTokens(v, 0), stack);
    case Arr(items) =>
      ItemTokensNest(v, 0, stack + [name]);
      NestWrapped(name, ItemTokens(v, 0), stack);
  }

  lemma NestWrapped(name: string, inner: seq<Token>, stack: seq<string>)
    requires Nest(inner, stack + [name]) == Some(stack + [name])
    ensures Nest([Open(name)] + inner + [Close(name)], stack) == Some(stack)
  {
    NestAppend([Open(name)] + inner, [Close(name)], stack);
    NestAppend([Open(name)], inner, stack);
    var open: seq<Token> := [Open(name)];
    assert open[1..] == [];
    assert (stack + [name])[..|stack|] == stack;
  }

  lemma {:induction false} FieldTokensNest(v: Value, i: nat, stack: seq<string>)
    requires v.Obj? && i <= |v.fields|
    ensures Nest(FieldTokens(v, i), stack) == Some(stack)
    decreases v, 0, |v.fields| - i
  {
    if i < |v.fields| {
      TokensNest(v.fields[i].1, v.fields[i].0, stack);
      FieldTokensNest(v, i + 1, stack);
      NestAppend(Tokens(v.fields[i].1, v.fields[i].0), FieldTokens(v, i + 1), stack);
    }
  }

  lemma {:induction false} ItemTokensNest(v: Value, i: nat, stack: seq<string>)
    requires v.Arr? && i <= |v.items|
    ensures Nest(ItemTokens(v, i), stack) == Some(stack)
    decreases v, 0, |v.items| - i
  {
    if i < |v.items| {
      TokensNest(v.items[i], ItemTag, stack);
      ItemTokensNest(v, i + 1, stack);
      NestAppend(Tokens(v.items[i], ItemTag), ItemTokens(v, i + 1), stack);
    }
  }

  // ---------------------------------------------------------------------
  // Properties of the serialiser
  // ---------------------------------------------------------------------

  /** The entries of an object whose value is not null or undefined. */
  function PresentFields(fields: seq<(string, Value)>): (r: seq<(string, Value)>)
    ensures |r| <= |fields|
    ensures forall k :: 0 <= k < |r| ==> r[k].1 != Null && r[k] in fields
    decreases |fields|
  {
    if fields == [] then []
    else
      var rest := PresentFields(fields[1..]);
      if fields[0].1 == Null then rest else [fields[0]] + rest
  }

  lemma {:induction false} PresentFieldsXml(v: Value, w: Value, i: nat, j: nat)
    requires v.Obj? && w.Obj? && i <= |v.fields| && j <= |w.fields|
    requires w.fields[j..] == PresentFields(v.fields[i..])
    ensures FieldsXml(v, i) == FieldsXml(w, j)
    decreases |v.fields| - i
  {
    if i < |v.fields| {
      var f := v.fields[i..];
      assert f[1..] == v.fields[i + 1..];
      if v.fields[i].1 == Null {
        PresentFieldsXml(v, w, i + 1, j);
      } else {
        assert w.fields[j] == v.fields[i];
        assert w.fields[j + 1..] == w.fields[j..][1..];
        PresentFieldsXml(v, w, i + 1, j + 1);
      }
    } else {
      assert |w.fields[j..]| == 0;
    }
  }

  /** An entry whose value is null or undefined writes no element at all: dropping it changes nothing. */
  lemma NullFieldsVanish(fields: seq<(string, Value)>, name: string)
    ensures ToXml(Obj(fields), name) == ToXml(Obj(PresentFields(fields)), name)
  {
    var v, w := Obj(fields), Obj(PresentFields(fields));
    assert v.fields[0..] == fields && w.fields[0..] == w.fields;
    PresentFieldsXml(v, w, 0, 0);
  }

  /** The object an array is written as: every element under the key `item`, in order. */
  function AsItemObject(items: seq<Value>): (r: seq<(string, Value)>)
    ensures |r| == |items|
    ensures forall k :: 0 <= k < |r| ==> r[k] == (ItemTag, items[k])
    decreases |items|
  {
    if items == [] then [] else [(ItemTag, items[0])] + AsItemObject(items[1..])
  }

  lemma {:induction false} ItemsAsFields(v: Value, w: Value, i: nat)
    requires v.Arr? && w.Obj? && w.fields == AsItemObject(v.items) && i <= |v.items|
    ensures ItemsXml(v, i) == FieldsXml(w, i)
    decreases |v.items| - i
  {
    if i < |v.items| {
      ItemsAsFields(v, w, i + 1);
    }
  }

  /** An array is written exactly like an object with one `item` entry per element. */
  lemma ArrayIsItemObject(items: seq<Value>, name: string)
    ensures ToXml(Arr(items), name) == ToXml(Obj(AsItemObject(items)), name)
  {
    ItemsAsFields(Arr(items), Obj(AsItemObject(items)), 0);
  }

  /**
   * Text is not escaped, so the output does not determine the tree: a
   * scalar holding markup is written exactly like the element it spells.
   */
  lemma TextIsNotEscaped()
    ensures ToXml(Scalar("<a>x</a>"), "r") == ToXml(Obj([("a", Scalar("x"))]), "r")
    ensures Scalar("<a>x</a>") != Obj([("a", Scalar("x"))])
  {
    var v := Obj([("a", Scalar("x"))]);
    assert FieldsXml(v, 1) == "";
    assert FieldsXml(v, 0) == "<a>x</a>";
  }

  /** Without a root name the tree is written under `response`; a null tree writes only the declaration. */
  lemma ObjectToXmlDefaults(v: Value)
    ensures ObjectToXml(v, None) == ObjectToXml(v, Some(DefaultRoot))
    ensures ObjectToXml(Null, None) == Declaration + "\n"
  {
  }
}
