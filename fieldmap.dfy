/** How the server turns the issues of a failed schema validation into one
    friendly message per form field (src/server.js:303-363): the field of an
    issue is the first element of its path, its label comes from a fixed table,
    and the first issue reported for a field decides the field's message. */
module FieldMap {
  import opened Wrappers
  import opened Strings
  import opened Seqs
  import opened Records

  /** One element of an issue's path: a property name or an array index. */
  datatype PathKey = Key(name: string) | Index(n: int)

  /** The issue codes the messages distinguish; every other code is `OtherCode`. */
  datatype Code = TooSmall | InvalidEnumValue | InvalidType | InvalidString | OtherCode

  /** The kind of value a `too_small` issue is about. */
  datatype Kind = StringKind | NumberKind | OtherKind

  /** An issue as the validator reports it; an absent `minimum` or `inclusive`
      is `None` and an absent `message` is the empty string. */
  datatype Issue = Issue(
    path: seq<PathKey>,
    code: Code,
    minimum: Option<int>,
    kind: Kind,
    inclusive: Option<bool>,
    message: string)

  /** `adminFieldLabel[fieldName]`, `None` for a name outside the table. */
  function AdminFieldLabel(fieldName: string): (r: Option<string>)
    ensures r.Some? ==> r.value != ""
  {
    if fieldName == "titulo" then Some("Titulo")
    else if fieldName == "descricao" then Some("Descricao")
    else if fieldName == "preco" then Some("Preco de venda")
    else if fieldName == "valorAluguel" then Some("Valor do aluguel")
    else if fieldName == "condominio" then Some("Condominio")
    else if fieldName == "iptu" then Some("IPTU")
    else if fieldName == "cidade" then Some("Cidade")
    else if fieldName == "bairro" then Some("Bairro")
    else if fieldName == "areaM2" then Some("Area (m2)")
    else if fieldName == "quartos" then Some("Quartos")
    else if fieldName == "suites" then Some("Suites")
    else if fieldName == "vagas" then Some("Vagas")
    else if fieldName == "categoria" then Some("Categoria")
    else if fieldName == "mobilado" then Some("Mobilado")
    else if fieldName == "aceitaPet" then Some("Aceita pet")
    else if fieldName == "fotos" then Some("Fotos")
    else None
  }

  /** `getAdminFieldNameFromIssue`: the first path element as a string, or the
      empty string when there is none or it is falsy (`""` or index 0). */
  function FieldName(issue: Issue): (name: string)
    ensures |issue.path| == 0 ==> name == ""
    ensures |issue.path| > 0 && issue.path[0].Key? ==> name == issue.path[0].name
    ensures |issue.path| > 0 && issue.path[0].Index? ==>
              (name == "" <==> issue.path[0].n == 0)
  {
    if |issue.path| == 0 then ""
    else match issue.path[0]
      case Key(n) => n
      case Index(i) => if i == 0 then "" else IntToString(i)
  }

  /** `adminFieldLabel[fieldName] || fieldName || 'Campo'`. */
  function Label(fieldName: string): (name: string)
    ensures name != ""
    ensures fieldName != "" && AdminFieldLabel(fieldName).None? ==> name == fieldName
    ensures fieldName == "" ==> name == "Campo"
  {
    match AdminFieldLabel(fieldName)
    case Some(l) => l
    case None => if fieldName != "" then fieldName else "Campo"
  }

  /** `toFriendlyFieldMessage`. Never empty, so a field that has a message is
      never assigned again. */
  function FriendlyMessage(issue: Issue, fieldName: string): (msg: string)
    ensures msg != ""
    ensures issue.code == TooSmall && issue.minimum.Some? && issue.kind == StringKind ==>
              msg == Label(fieldName) + " deve ter pelo menos " + IntToString(issue.minimum.value) + " caracteres."
    ensures issue.code == TooSmall && issue.minimum.Some? && issue.kind == NumberKind && issue.inclusive == Some(false) ==>
              msg == Label(fieldName) + " deve ser maior que " + IntToString(issue.minimum.value) + "."
    ensures issue.code == TooSmall && issue.minimum.Some? && issue.kind == NumberKind && issue.inclusive != Some(false) ==>
              msg == Label(fieldName) + " deve ser maior ou igual a " + IntToString(issue.minimum.value) + "."
    ensures issue.code == InvalidEnumValue ==> msg == Label(fieldName) + " possui um valor invalido."
    ensures issue.code == InvalidType || issue.code == InvalidString ==> msg == Label(fieldName) + " esta em formato invalido."
    ensures issue.code == OtherCode && issue.message != "" ==> msg == issue.message
    ensures (issue.code == OtherCode || (issue.code == TooSmall && (issue.minimum.None? || issue.kind == OtherKind))) ==>
              msg == if issue.message != "" then issue.message else Label(fieldName) + " invalido."
  {
    var lbl := Label(fieldName);
    if issue.code == TooSmall && issue.minimum.Some? && issue.kind == StringKind then
      lbl + " deve ter pelo menos " + IntToString(issue.minimum.value) + " caracteres."
    else if issue.code == TooSmall && issue.minimum.Some? && issue.kind == NumberKind then
      if issue.inclusive == Some(false) then lbl + " deve ser maior que " + IntToString(issue.minimum.value) + "."
      else lbl + " deve ser maior ou igual a " + IntToString(issue.minimum.value) + "."
    else if issue.code == InvalidEnumValue then lbl + " possui um valor invalido."
    else if issue.code == InvalidType || issue.code == InvalidString then lbl + " esta em formato invalido."
    else if issue.message != "" then issue.message
    else lbl + " invalido."
  }

  /** The field names of the issues, in order. */
  function Names(issues: seq<Issue>): (names: seq<string>)
    ensures |names| == |issues| && forall k :: 0 <= k < |issues| ==> names[k] == FieldName(issues[k])
  {
    seq(|issues|, k requires 0 <= k < |issues| => FieldName(issues[k]))
  }

  /** The message of each issue for its own field. */
  function Messages(issues: seq<Issue>): (msgs: seq<string>)
    ensures |msgs| == |issues|
    ensures forall k :: 0 <= k < |issues| ==> msgs[k] == FriendlyMessage(issues[k], FieldName(issues[k])) && msgs[k] != ""
  {
    seq(|issues|, k requires 0 <= k < |issues| => FriendlyMessage(issues[k], FieldName(issues[k])))
  }

  /** The name at `k` occurs there first. */
  predicate FirstOccurrence(names: seq<string>, k: nat)
    requires k < |names|
  {
    forall j :: 0 <= j < k ==> names[j] != names[k]
  }

  /** The issue at `k` is the first one reported for its field. */
  predicate FirstForField(issues: seq<Issue>, k: nat)
    requires k < |issues|
  {
    FirstOccurrence(Names(issues), k)
  }

  /** One turn of the `forEach`: a field name that is falsy or already has a
      (truthy) message is skipped, otherwise it receives the issue's message. */
  function Record(fields: Fields, issue: Issue): Fields {
    var fieldName := FieldName(issue);
    if fieldName == "" || (Get(fields, fieldName).Some? && Get(fields, fieldName).value != "") then fields
    else Put(fields, fieldName, FriendlyMessage(issue, fieldName))
  }

  /** What the object holds after the first `k` names: each non-empty name once,
      in order of first occurrence, with the message that came with it first. */
  ghost predicate MapsFirst(names: seq<string>, msgs: seq<string>, k: nat, fields: Fields)
    requires k <= |names| == |msgs|
  {
    && DistinctKeys(fields)
    && Keys(fields) == DistinctNames(names[..k])
    && (forall n :: Get(fields, n).Some? ==> Get(fields, n).value != "")
    && (forall j :: 0 <= j < k && names[j] != "" && FirstOccurrence(names, j) ==> Get(fields, names[j]) == Some(msgs[j]))
  }

  /** A falsy name, or one that already has its message, changes nothing. */
  lemma SkipStep(names: seq<string>, msgs: seq<string>, k: nat, fields: Fields)
    requires k < |names| == |msgs| && MapsFirst(names, msgs, k, fields)
    requires names[k] == "" || names[k] in Keys(fields)
    ensures MapsFirst(names, msgs, k + 1, fields)
  {
    var before := names[..k];
    assert names[..k + 1] == before + [names[k]];
    SkippedName(before, names[k]);
    if names[k] != "" {
      SeenNotFirst(names, k, fields);
    }
  }

  /** A name that already has a key occurred before. */
  lemma SeenNotFirst(names: seq<string>, k: nat, fields: Fields)
    requires k < |names| && Keys(fields) == DistinctNames(names[..k]) && names[k] in Keys(fields)
    ensures !FirstOccurrence(names, k)
  {
    DistinctNamesMembers(names[..k]);
    assert names[k] in names[..k];
    var j :| 0 <= j < k && names[..k][j] == names[k];
    assert names[j] == names[k];
  }

  /** A falsy or already seen name adds no distinct name. */
  lemma SkippedName(before: seq<string>, name: string)
    requires name == "" || name in DistinctNames(before)
    ensures DistinctNames(before + [name]) == DistinctNames(before)
  {
    DistinctNamesSnoc(before, name);
    DistinctNamesMembers(before);
    assert DistinctNames(before) + [] == DistinctNames(before);
  }

  /** A new non-empty name receives its message and becomes the last key. */
  lemma AssignStep(names: seq<string>, msgs: seq<string>, k: nat, fields: Fields)
    requires k < |names| == |msgs| && MapsFirst(names, msgs, k, fields)
    requires names[k] != "" && names[k] !in Keys(fields) && msgs[k] != ""
    ensures MapsFirst(names, msgs, k + 1, Put(fields, names[k], msgs[k]))
  {
    var after := Put(fields, names[k], msgs[k]);
    AssignedKeys(names, k, fields, msgs[k]);
    PutDistinct(fields, names[k], msgs[k]);
    PutGet(fields, names[k], msgs[k]);
    AssignedValues(names, msgs, k, fields);
  }

  /** After assigning a new name, every first occurrence so far reads as its
      own message. */
  lemma AssignedValues(names: seq<string>, msgs: seq<string>, k: nat, fields: Fields)
    requires k < |names| == |msgs| && names[k] !in Keys(fields)
    requires forall j :: 0 <= j < k && names[j] != "" && FirstOccurrence(names, j) ==> Get(fields, names[j]) == Some(msgs[j])
    ensures forall j :: 0 <= j < k + 1 && names[j] != "" && FirstOccurrence(names, j) ==>
              Get(Put(fields, names[k], msgs[k]), names[j]) == Some(msgs[j])
  {
    PutGet(fields, names[k], msgs[k]);
  }

  /** The keys after assigning a new name are the distinct names so far. */
  lemma AssignedKeys(names: seq<string>, k: nat, fields: Fields, msg: string)
    requires k < |names| && names[k] != "" && Keys(fields) == DistinctNames(names[..k])
    requires names[k] !in Keys(fields)
    ensures Keys(Put(fields, names[k], msg)) == DistinctNames(names[..k + 1])
  {
    var before := names[..k];
    assert names[..k + 1] == before + [names[k]];
    DistinctNamesSnoc(before, names[k]);
    DistinctNamesMembers(before);
    PutNew(fields, names[k], msg);
    KeysConcat(fields, [(names[k], msg)]);
  }

  lemma RecordStep(issues: seq<Issue>, k: nat, fields: Fields)
    requires k < |issues| && MapsFirst(Names(issues), Messages(issues), k, fields)
    ensures MapsFirst(Names(issues), Messages(issues), k + 1, Record(fields, issues[k]))
  {
    var names, msgs := Names(issues), Messages(issues);
    if names[k] == "" || names[k] in Keys(fields) {
      SkipStep(names, msgs, k, fields);
    } else {
      AssignStep(names, msgs, k, fields);
    }
  }

  /** `zodIssuesToFieldMap`: one key per field that has an issue, in order of
      the field's first issue, holding the message of that first issue. */
  method ZodIssuesToFieldMap(issues: seq<Issue>) returns (fields: Fields)
    ensures DistinctKeys(fields)
    ensures Keys(fields) == DistinctNames(Names(issues))
    ensures forall k :: 0 <= k < |issues| && FieldName(issues[k]) != "" && FirstForField(issues, k) ==>
              Get(fields, FieldName(issues[k])) == Some(FriendlyMessage(issues[k], FieldName(issues[k])))
  {
    fields := [];
    for k := 0 to |issues|
      invariant MapsFirst(Names(issues), Messages(issues), k, fields)
    {
      RecordStep(issues, k, fields);
      fields := Record(fields, issues[k]);
    }
    assert Names(issues)[..|issues|] == Names(issues);
  }

  /** A title shorter than the schema's 3 characters is reported with its
      label and the minimum. */
  lemma ShortTitleMessage(issue: Issue)
    requires issue.code == TooSmall && issue.minimum == Some(3) && issue.kind == StringKind
    ensures FriendlyMessage(issue, "titulo") == "Titulo" + " deve ter pelo menos " + "3" + " caracteres."
  {
    assert Label("titulo") == "Titulo";
    assert IntToString(3) == "3";
  }

  /** The area must be positive: the schema's exclusive minimum 0. */
  lemma AreaNotPositiveMessage(issue: Issue)
    requires issue.code == TooSmall && issue.minimum == Some(0) && issue.kind == NumberKind
    requires issue.inclusive == Some(false)
    ensures FriendlyMessage(issue, "areaM2") == "Area (m2)" + " deve ser maior que " + "0" + "."
  {
    assert Label("areaM2") == "Area (m2)";
    assert IntToString(0) == "0";
  }

  /** A field outside the table is labelled by its own name. */
  lemma UnknownFieldMessage(issue: Issue)
    requires issue.code == InvalidType
    ensures FriendlyMessage(issue, "extra") == "extra" + " esta em formato invalido."
  {
    assert Label("extra") == "extra";
  }
}
