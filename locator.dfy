/**
  The code locator of `__main__`: `find_class_or_method` searches a syntax tree for a
  class of a given name and returns its unparsed source; `read_class_or_method` wraps it
  with reading and parsing the file.

  The tree keeps only what the search looks at. `ast.unparse` is the input `unparse`,
  `ast.parse` the input `parse` (None for a syntax error), and the file read the input
  `contents` (None for an `IOError`).
*/
module Locator {
  import opened Wrappers
  import Disk

  datatype Node =
    | Module(body: seq<Node>)
    | ClassDef(name: string, body: seq<Node>)
    | FunctionDef(name: string, body: seq<Node>)
    | Other

  /** `find_class_or_method(node, name)`: a class of that name is unparsed; class and
      module bodies are searched in order, and the first truthy result is returned. */
  function FindClassOrMethod(node: Node, name: string, unparse: Node -> string): Option<string>
    decreases node, 1
  {
    match node
    case ClassDef(n, body) =>
      if n == name then Some(unparse(node)) else FindInBody(node, 0, name, unparse)
    case Module(body) => FindInBody(node, 0, name, unparse)
    case _ => None
  }

  /** The `for subnode in node.body` loop from position `i` on: an empty string is falsy
      in Python, so only a non-empty result stops the loop. */
  function FindInBody(parent: Node, i: nat, name: string, unparse: Node -> string): Option<string>
    requires parent.Module? || parent.ClassDef?
    decreases parent, 0, |parent.body| - i
  {
    if i >= |parent.body| then None
    else
      var result := FindClassOrMethod(parent.body[i], name, unparse);
      if result.Some? && result.value != "" then result
      else FindInBody(parent, i + 1, name, unparse)
  }

  /** The classes the search can reach, in pre-order: it descends into modules and
      classes, never into functions. */
  function Classes(node: Node): seq<Node>
    decreases node, 1
  {
    match node
    case ClassDef(_, body) => [node] + ClassesIn(node, 0)
    case Module(body) => ClassesIn(node, 0)
    case _ => []
  }

  function ClassesIn(parent: Node, i: nat): seq<Node>
    requires parent.Module? || parent.ClassDef?
    decreases parent, 0, |parent.body| - i
  {
    if i >= |parent.body| then [] else Classes(parent.body[i]) + ClassesIn(parent, i + 1)
  }

  /** The first class named `name` in a list of classes. */
  function FirstNamed(classes: seq<Node>, name: string): (r: Option<Node>)
    ensures r.Some? ==> r.value in classes && r.value.ClassDef? && r.value.name == name
    ensures r.None? ==> forall c :: c in classes && c.ClassDef? ==> c.name != name
  {
    if classes == [] then None
    else if classes[0].ClassDef? && classes[0].name == name then Some(classes[0])
    else FirstNamed(classes[1..], name)
  }

  lemma FirstNamedAppend(a: seq<Node>, b: seq<Node>, name: string)
    ensures FirstNamed(a + b, name) == if FirstNamed(a, name).Some? then FirstNamed(a, name) else FirstNamed(b, name)
  {
    if a != [] {
      assert (a + b)[1..] == a[1..] + b;
      FirstNamedAppend(a[1..], b, name);
    } else {
      assert a + b == b;
    }
  }

  /** Unparsing a class never yields the empty string (it starts with `class`); other
      nodes, such as an empty module, may unparse to "". */
  ghost predicate UnparseIsTruthy(unparse: Node -> string)
  {
    forall n: Node :: n.ClassDef? ==> unparse(n) != ""
  }

  /** The search returns the unparsed first class named `name` in pre-order, and None
      when no reachable class has that name. */
  lemma {:induction false} FindIsFirstInPreorder(node: Node, name: string, unparse: Node -> string)
    requires UnparseIsTruthy(unparse)
    ensures FindClassOrMethod(node, name, unparse)
         == match FirstNamed(Classes(node), name)
            case Some(c) => Some(unparse(c))
            case None => None
    decreases node, 1
  {
    match node
    case ClassDef(n, body) =>
      if n != name {
        FindInBodyIsFirst(node, 0, name, unparse);
        assert Classes(node)[1..] == ClassesIn(node, 0);
      }
    case Module(body) =>
      FindInBodyIsFirst(node, 0, name, unparse);
    case _ =>
  }

  lemma {:induction false} FindInBodyIsFirst(parent: Node, i: nat, name: string, unparse: Node -> string)
    requires parent.Module? || parent.ClassDef?
    requires UnparseIsTruthy(unparse)
    ensures FindInBody(parent, i, name, unparse)
         == match FirstNamed(ClassesIn(parent, i), name)
            case Some(c) => Some(unparse(c))
            case None => None
    decreases parent, 0, |parent.body| - i
  {
    if i < |parent.body| {
      var child := parent.body[i];
      FindIsFirstInPreorder(child, name, unparse);
      FindInBodyIsFirst(parent, i + 1, name, unparse);
      FirstNamedAppend(Classes(child), ClassesIn(parent, i + 1), name);
    }
  }

  /** Only a class is ever found: a module whose body holds just functions, whatever
      their names and bodies, yields None. */
  lemma FunctionsAreNeverFound(fns: seq<Node>, name: string, unparse: Node -> string)
    requires forall k :: 0 <= k < |fns| ==> fns[k].FunctionDef?
    ensures FindClassOrMethod(Module(fns), name, unparse) == None
  {
    FunctionBodiesSkipped(Module(fns), 0, name, unparse);
  }

  lemma {:induction false} FunctionBodiesSkipped(m: Node, i: nat, name: string, unparse: Node -> string)
    requires m.Module? && i <= |m.body|
    requires forall k :: 0 <= k < |m.body| ==> m.body[k].FunctionDef?
    ensures FindInBody(m, i, name, unparse) == None
    decreases |m.body| - i
  {
    if i < |m.body| {
      FunctionBodiesSkipped(m, i + 1, name, unparse);
    }
  }

  /** The errors `read_class_or_method` raises. */
  datatype ReadError = IOError | SyntaxError | ValueError

  /** `read_class_or_method(source_file, name)` in the directory `dir`: read, parse,
      search; the path is `os.path.join(dir, source_file)`. */
  function ReadClassOrMethod(dir: string, sourceFile: string, name: string, contents: Option<string>,
                             parse: string -> Option<Node>, unparse: Node -> string)
    : (r: Result<(string, string), ReadError>)
    ensures r == Err(IOError) <==> contents.None?
    ensures r == Err(SyntaxError) <==> contents.Some? && parse(contents.value).None?
    ensures r == Err(ValueError) <==>
      && contents.Some?
      && parse(contents.value).Some?
      && FindClassOrMethod(parse(contents.value).value, name, unparse).None?
    ensures r.Ok? ==>
      && contents.Some?
      && parse(contents.value).Some?
      && Some(r.value.0) == FindClassOrMethod(parse(contents.value).value, name, unparse)
      && r.value.1 == Disk.PathJoin(dir, sourceFile)
  {
    match contents
    case None => Err(IOError)
    case Some(text) =>
      match parse(text)
      case None => Err(SyntaxError)
      case Some(tree) =>
        match FindClassOrMethod(tree, name, unparse)
        case None => Err(ValueError)
        case Some(code) => Ok((code, Disk.PathJoin(dir, sourceFile)))
  }
}
