/**
 * The admin form's state object (`formData`) and the pure updaters that its
 * change handlers pass to `setFormData`. Inputs address fields by name at run
 * time, so the form is a map from key to a JSON-like value.
 */
module FormState {
  import opened Wrappers
  import opened Strings

  /** A form field value: null, a string, a nested object, or an array. */
  datatype Value = Null | Text(s: string) | Record(fields: map<string, Value>) | List(items: seq<Value>)

  type Form = map<string, Value>

  /** `emptyFormData`. */
  function EmptyForm(): Form {
    map["id" := Null, "title" := Text(""), "ticker" := Text(""), "description" := Text(""),
        "sector" := Text(""), "date" := Text(""), "methodology" := Text(""),
        "recommendation" := Text(""), "targetPrice" := Text(""), "upside" := Text(""),
        "pdfUrl" := Text(""), "excelUrl" := Text(""), "logoUrl" := Text("")]
  }

  /** The blank form has the thirteen record fields, every one an empty string except a null `id`. */
  lemma EmptyFormFields()
    ensures EmptyForm().Keys == {"id", "title", "ticker", "description", "sector", "date", "methodology",
                                 "recommendation", "targetPrice", "upside", "pdfUrl", "excelUrl", "logoUrl"}
    ensures EmptyForm()["id"] == Null
    ensures forall k :: k in EmptyForm() && k != "id" ==> EmptyForm()[k] == Text("")
  {
  }

  /** `obj[key]`: the value, or None for undefined. */
  function Get(m: map<string, Value>, key: string): Option<Value> {
    if key in m then Some(m[key]) else None
  }

  /** A field read as a string; undefined, null and non-string values read as "". */
  function TextOf(form: Form, key: string): (s: string)
    ensures key in form && form[key].Text? ==> s == form[key].s
    ensures !(key in form && form[key].Text?) ==> s == ""
  {
    match Get(form, key)
    case Some(Text(s)) => s
    case _ => ""
  }

  /** The entries `{...v}` copies: an object's own fields, nothing for anything else. */
  function Spread(v: Option<Value>): map<string, Value> {
    match v
    case Some(Record(fields)) => fields
    case _ => map[]
  }

  /** The value at a path of keys into nested objects. */
  function GetPath(m: map<string, Value>, path: seq<string>): Option<Value>
    requires |path| >= 1
    decreases |path|
  {
    if |path| == 1 then Get(m, path[0])
    else match Get(m, path[0])
      case Some(Record(fields)) => GetPath(fields, path[1..])
      case _ => None
  }

  /** Neither path is a prefix of the other: they part at some level. */
  ghost predicate Diverges(p: seq<string>, q: seq<string>) {
    exists j :: 0 <= j < |p| && j < |q| && p[j] != q[j]
  }

  /** The third piece of a dotted name, or "" (falsy, like `undefined`) when there is none. */
  function Grandchild(parts: seq<string>): string {
    if |parts| >= 3 then parts[2] else ""
  }

  /**
   * The path a named input writes to: the name itself when it has no dot;
   * otherwise `parent.child`, extended by the grandchild when that is non-empty.
   * Pieces after the third are ignored.
   */
  function AddressedPath(name: string): (path: seq<string>)
    ensures 1 <= |path| <= 3
    ensures |path| == 1 <==> '.' !in name
    ensures '.' !in name ==> path == [name]
    ensures '.' in name ==> |Split(name, '.')| >= 2 && path[..2] == Split(name, '.')[..2]
    ensures '.' in name ==> (|path| == 3 <==> Grandchild(Split(name, '.')) != "")
    ensures |path| == 3 ==> path[2] == Split(name, '.')[2]
  {
    if '.' !in name then [name]
    else
      var parts := Split(name, '.');
      SplitCount(name, '.');
      parts[..2] + (if Grandchild(parts) != "" then [Grandchild(parts)] else [])
  }

  /**
   * A name written as one to three dot-free parts, the third one non-empty,
   * addresses exactly those parts.
   */
  lemma AddressedPathOfJoin(parts: seq<string>)
    requires 1 <= |parts| <= 3
    requires forall i :: 0 <= i < |parts| ==> '.' !in parts[i]
    requires |parts| == 3 ==> parts[2] != ""
    ensures AddressedPath(Join(parts, '.')) == parts
  {
    SplitJoin(parts, '.');
    SplitCount(Join(parts, '.'), '.');
  }

  /**
   * A dotted change with a grandchild reads `prev[parent][child]`, which
   * throws when `prev[parent]` is undefined or null.
   */
  predicate NamedChangeDefined(form: Form, name: string) {
    |AddressedPath(name)| == 3 ==> Get(form, AddressedPath(name)[0]) !in {None, Some(Null)}
  }

  /** The change events the inputs deliver. */
  datatype ChangeEvent =
    | EditorChange(html: string)              // the rich-text editor, called with field 'methodology'
    | TargetChange(name: string, value: string) // a named input, read from e.target

  predicate ChangeDefined(form: Form, e: ChangeEvent) {
    e.TargetChange? ==> NamedChangeDefined(form, e.name)
  }

  /** The path an event writes to. */
  function ChangedPath(e: ChangeEvent): (path: seq<string>)
    ensures 1 <= |path| <= 3
    ensures e.EditorChange? ==> path == ["methodology"]
    ensures e.TargetChange? ==> path == AddressedPath(e.name)
  {
    match e
    case EditorChange(_) => ["methodology"]
    case TargetChange(name, _) => AddressedPath(name)
  }

  function NewText(e: ChangeEvent): string {
    match e
    case EditorChange(html) => html
    case TargetChange(_, value) => value
  }

  /**
   * The updater `handleInputChange` hands to `setFormData`: the editor's HTML
   * replaces `methodology` wholesale; a dotted name rebuilds its parent object
   * (and child object, for a grandchild) with the one entry replaced; any other
   * name sets that one field.
   */
  function ApplyChange(form: Form, e: ChangeEvent): (r: Form)
    requires ChangeDefined(form, e)
    ensures r.Keys == form.Keys + {ChangedPath(e)[0]}
  {
    match e
    case EditorChange(html) => form["methodology" := Text(html)]
    case TargetChange(name, value) =>
      if '.' !in name then form[name := Text(value)]
      else
        var path := AddressedPath(name);
        var parent, child := path[0], path[1];
        var siblings := Spread(Get(form, parent));
        form[parent := Record(siblings[child :=
          if |path| == 3 then Record(Spread(Get(siblings, child))[path[2] := Text(value)])
          else Text(value)])]
  }

  /** After a change, the addressed field holds the new text. */
  lemma ChangeSetsAddressed(form: Form, e: ChangeEvent)
    requires ChangeDefined(form, e)
    ensures GetPath(ApplyChange(form, e), ChangedPath(e)) == Some(Text(NewText(e)))
  {
    var path := ChangedPath(e);
    if |path| == 2 {
      assert path[1..] == [path[1]];
    } else if |path| == 3 {
      var r := ApplyChange(form, e);
      var fields := r[path[0]].fields;
      assert GetPath(r, path) == GetPath(fields, path[1..]);
      assert path[1..][1..] == [path[2]];
      assert GetPath(fields, path[1..]) == GetPath(fields[path[1]].fields, [path[2]]);
    }
  }

  /** A change leaves every field whose path parts from the addressed one as it was. */
  lemma ChangeFrame(form: Form, e: ChangeEvent, q: seq<string>)
    requires ChangeDefined(form, e)
    requires |q| >= 1 && Diverges(ChangedPath(e), q)
    ensures GetPath(ApplyChange(form, e), q) == GetPath(form, q)
  {
    var p := ChangedPath(e);
    var r := ApplyChange(form, e);
    var j :| 0 <= j < |p| && j < |q| && p[j] != q[j];
    if q[0] != p[0] {
      assert Get(r, q[0]) == Get(form, q[0]);
    } else {
      assert j >= 1 && |p| >= 2 && e.TargetChange?;
      ChangeFrameInside(form, e, q);
    }
  }

  /** The part of `ChangeFrame` where `q` enters the same top-level object as the change. */
  lemma ChangeFrameInside(form: Form, e: ChangeEvent, q: seq<string>)
    requires ChangeDefined(form, e) && e.TargetChange?
    requires |ChangedPath(e)| >= 2 && |q| >= 2 && q[0] == ChangedPath(e)[0]
    requires Diverges(ChangedPath(e), q)
    ensures GetPath(ApplyChange(form, e), q) == GetPath(form, q)
  {
    var p := ChangedPath(e);
    var r := ApplyChange(form, e);
    var siblings := Spread(Get(form, p[0]));
    var fields := r[p[0]].fields;
    assert GetPath(r, q) == GetPath(fields, q[1..]);
    if q[1] != p[1] {
      assert Get(fields, q[1]) == Get(siblings, q[1]);
      if Get(form, p[0]).Some? && Get(form, p[0]).value.Record? {
        var f := Get(form, p[0]).value.fields;
        assert GetPath(form, q) == GetPath(f, q[1..]);
        FirstStepSame(fields, f, q[1..]);
      }
    } else {
      var j :| 0 <= j < |p| && j < |q| && p[j] != q[j];
      assert j >= 2 && |p| == 3;
      var inner := Spread(Get(siblings, p[1]));
      assert GetPath(fields, q[1..]) == GetPath(fields[p[1]].fields, q[2..]);
      assert Get(fields[p[1]].fields, q[2]) == Get(inner, q[2]);
      if Get(form, p[0]).Some? && Get(form, p[0]).value.Record? {
        var f := Get(form, p[0]).value.fields;
        assert GetPath(form, q) == GetPath(f, q[1..]);
        if Get(f, p[1]).Some? && Get(f, p[1]).value.Record? {
          var g := Get(f, p[1]).value.fields;
          assert GetPath(f, q[1..]) == GetPath(g, q[2..]);
          FirstStepSame(fields[p[1]].fields, g, q[2..]);
        }
      }
    }
  }

  /** Two objects that agree on a path's first key agree on the whole path. */
  lemma FirstStepSame(m: map<string, Value>, n: map<string, Value>, q: seq<string>)
    requires |q| >= 1 && Get(m, q[0]) == Get(n, q[0])
    ensures GetPath(m, q) == GetPath(n, q)
  {
  }

  /** The field holds an array. */
  predicate IsList(form: Form, field: string) {
    field in form && form[field].List?
  }

  /** `prev[field].map((item, i) => i === index ? value : item)`. */
  function SetItem(form: Form, index: int, field: string, value: string): (r: Form)
    requires IsList(form, field)
    ensures r.Keys == form.Keys && IsList(r, field)
  {
    var items := form[field].items;
    form[field := List(seq(|items|, i requires 0 <= i < |items| => if i == index then Text(value) else items[i]))]
  }

  /** `[...prev[field], '']`. */
  function AddItem(form: Form, field: string): (r: Form)
    requires IsList(form, field)
    ensures r.Keys == form.Keys && IsList(r, field)
  {
    form[field := List(form[field].items + [Text("")])]
  }

  /** `prev[field].filter((_, i) => i !== index)`. */
  function RemoveItem(form: Form, field: string, index: int): (r: Form)
    requires IsList(form, field)
    ensures r.Keys == form.Keys && IsList(r, field)
  {
    form[field := List(DropAt(form[field].items, index))]
  }

  /** The elements whose position is not `index`, in order. */
  function DropAt(xs: seq<Value>, index: int): (r: seq<Value>)
    ensures 0 <= index < |xs| ==> r == xs[..index] + xs[index + 1..]
    ensures !(0 <= index < |xs|) ==> r == xs
    decreases |xs|
  {
    if xs == [] then []
    else (if index == 0 then [] else [xs[0]]) + DropAt(xs[1..], index - 1)
  }

  /**
   * The array handlers change only the addressed array: setting an item keeps
   * the length and replaces the item at an index in range (nothing otherwise);
   * adding appends one empty string; removing drops the item at an index in
   * range (nothing otherwise). Every other field is untouched.
   */
  lemma ArrayHandlers(form: Form, field: string, index: int, value: string)
    requires IsList(form, field)
    ensures var items := form[field].items;
      && SetItem(form, index, field, value)[field].items
           == (if 0 <= index < |items| then items[index := Text(value)] else items)
      && AddItem(form, field)[field].items == items + [Text("")]
      && RemoveItem(form, field, index)[field].items
           == (if 0 <= index < |items| then items[..index] + items[index + 1..] else items)
    ensures forall k :: k in form && k != field ==>
      SetItem(form, index, field, value)[k] == form[k] &&
      AddItem(form, field)[k] == form[k] &&
      RemoveItem(form, field, index)[k] == form[k]
  {
  }

  /** Removing the item that was just added gives back the form. */
  lemma AddThenRemove(form: Form, field: string)
    requires IsList(form, field)
    ensures RemoveItem(AddItem(form, field), field, |form[field].items|) == form
  {
    var items := form[field].items;
    var longer := items + [Text("")];
    assert DropAt(longer, |items|) == longer[..|items|] + longer[|items| + 1..];
    assert longer[..|items|] == items && longer[|items| + 1..] == [];
    var added := AddItem(form, field);
    assert added[field].items == longer;
    var removed := RemoveItem(added, field, |items|);
    assert removed[field] == List(items) == form[field];
    assert removed.Keys == form.Keys;
    assert forall k :: k in form ==> removed[k] == form[k];
  }
}
