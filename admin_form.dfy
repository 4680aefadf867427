/** The admin form's checks before it is sent (src/public/admin/admin.js):
    `sanitizePayload`, `validatePayload`, `normalizeServerFieldErrors` and
    `getFirstValidationMessage`. The payload is `Object.fromEntries` of the
    form's text entries, a map from field names to strings; `Number()` on a
    general string is a parameter. */
module AdminForm {
  import opened Wrappers
  import opened Strings
  import opened Seqs
  import opened Records
  import opened TextSafety
  import opened AdminPhotos

  type Payload = map<string, string>

  /** A JavaScript number: a finite value, `NaN` or an infinity. */
  datatype JsNumber = Finite(v: real) | NaN | Infinity(negative: bool)

  /** `x <= 0`, which is false for `NaN`. */
  predicate AtMostZero(x: JsNumber) {
    (x.Finite? && x.v <= 0.0) || x == Infinity(true)
  }

  /** `Number.isInteger(x) && x >= 0`. */
  predicate NonNegativeInteger(x: JsNumber) {
    x.Finite? && x.v.Floor as real == x.v && x.v >= 0.0
  }

  /** `payload[key]`, `None` standing for `undefined`. */
  function Value(payload: Payload, key: string): Option<string> {
    if key in payload then Some(payload[key]) else None
  }

  /** `(payload[key] || '')`. */
  function Text(payload: Payload, key: string): string {
    Value(payload, key).GetOr("")
  }

  /** `Number(payload[key])`: `Number(undefined)` is `NaN`. */
  function NumberOf(number: string -> JsNumber, v: Option<string>): JsNumber {
    if v.None? then NaN else number(v.value)
  }

  /** Everything the checks read: the payload, the module's `selectedFiles`
      and `fotos`, and the two browser functions. */
  datatype Form = Form(payload: Payload, selectedFiles: seq<File>, fotos: seq<string>,
                       number: string -> JsNumber, isValidImageUrl: string -> bool)

  /** The answer for a required text of at least `min` characters. */
  function LengthCheck(text: string, min: nat, missing: string, tooShort: string): Option<string> {
    if text == "" then Some(missing)
    else if |text| < min then Some(tooShort)
    else None
  }

  /** The answer for a required positive amount: a falsy value is missing, and
      a number at most zero is refused. */
  function AmountCheck(v: Option<string>, number: string -> JsNumber, missing: string, notPositive: string): Option<string> {
    if v.None? || v.value == "" then Some(missing)
    else if AtMostZero(number(v.value)) then Some(notPositive)
    else None
  }

  /** The answer for a count that must be a non-negative integer. */
  function CountCheck(v: Option<string>, number: string -> JsNumber, msg: string): Option<string> {
    if NonNegativeInteger(NumberOf(number, v)) then None else Some(msg)
  }

  predicate SomeNotImage(files: seq<File>) {
    exists f :: f in files && !StartsWith(f.mime, AllowedFileTypePrefix)
  }

  predicate SomeTooLarge(files: seq<File>) {
    exists f :: f in files && f.size > MaxFileSizeBytes
  }

  predicate SomeInvalidUrl(fotos: seq<string>, isValidImageUrl: string -> bool) {
    exists u :: u in fotos && !isValidImageUrl(u)
  }

  /** The messages of `validatePayload`. */
  const TituloMissing := "Informe o titulo do imovel."
  const TituloShort := "Titulo deve ter pelo menos 3 caracteres."
  const DescricaoMissing := "Informe uma descricao do imovel."
  const DescricaoShort := "Descricao deve ter pelo menos 10 caracteres."
  const CidadeMissing := "Informe a cidade."
  const CidadeShort := "Cidade deve ter pelo menos 2 caracteres."
  const BairroMissing := "Informe o bairro."
  const BairroShort := "Bairro deve ter pelo menos 2 caracteres."
  const PrecoMissing := "Informe o preco de venda."
  const PrecoNotPositive := "Preco de venda deve ser maior que zero."
  const AluguelMissing := "Informe o valor do aluguel."
  const AluguelNotPositive := "Valor do aluguel deve ser maior que zero."
  const AreaMissing := "Informe a area do imovel."
  const AreaNotPositive := "Area deve ser maior que zero."
  const QuartosMissing := "Informe a quantidade de quartos."
  const QuartosInvalid := "Quartos deve ser um numero inteiro maior ou igual a zero."
  const SuitesInvalid := "Suites deve ser um numero inteiro maior ou igual a zero."
  const VagasInvalid := "Vagas deve ser um numero inteiro maior ou igual a zero."

  const TooManyFiles := "Voce pode enviar no maximo " + NatToString(MaxUploadFiles) + " arquivos locais."
  const NotAllImages := "Todos os arquivos devem ser imagens."
  const TooLarge := "Uma ou mais imagens excedem o limite de 5 MB."
  const InvalidUrls := "Uma ou mais URLs de foto estao invalidas."

  /** The photos' answer: each check that fails overwrites the one before, so
      the last failing check in the code's order is the one that stays. */
  function FotosVerdict(selectedFiles: seq<File>, fotos: seq<string>, isValidImageUrl: string -> bool): Option<string> {
    if SomeInvalidUrl(fotos, isValidImageUrl) then Some(InvalidUrls)
    else if SomeTooLarge(selectedFiles) then Some(TooLarge)
    else if SomeNotImage(selectedFiles) then Some(NotAllImages)
    else if |selectedFiles| > MaxUploadFiles then Some(TooManyFiles)
    else None
  }

  /** The fields `validatePayload` checks. */
  datatype FormField = Titulo | Descricao | Cidade | Bairro | Preco | ValorAluguel
                     | AreaM2 | Quartos | Suites | Vagas | Fotos

  /** The field's key in the payload and in the error object. */
  function Name(field: FormField): string {
    match field
    case Titulo => "titulo"
    case Descricao => "descricao"
    case Cidade => "cidade"
    case Bairro => "bairro"
    case Preco => "preco"
    case ValorAluguel => "valorAluguel"
    case AreaM2 => "areaM2"
    case Quartos => "quartos"
    case Suites => "suites"
    case Vagas => "vagas"
    case Fotos => "fotos"
  }

  /** No two fields share a key. */
  lemma NameInjective(a: FormField, b: FormField)
    requires Name(a) == Name(b)
    ensures a == b
  {
    var n := Name(a);
    assert |n| == |Name(b)| && n[0] == Name(b)[0] && n[|n| - 1] == Name(b)[|n| - 1];
  }

  /** The fields in the order the code checks them. */
  const FormOrder: seq<FormField> := [Titulo, Descricao, Cidade, Bairro, Preco, ValorAluguel,
                                      AreaM2, Quartos, Suites, Vagas, Fotos]

  /** The message `field` receives, if any. */
  function Verdict(form: Form, field: FormField): Option<string> {
    var p := form.payload;
    match field
    case Titulo =>
      LengthCheck(Trim(Text(p, "titulo")), 3, TituloMissing, TituloShort)
    case Descricao =>
      LengthCheck(Trim(Text(p, "descricao")), 10, DescricaoMissing, DescricaoShort)
    case Cidade =>
      LengthCheck(Trim(Text(p, "cidade")), 2, CidadeMissing, CidadeShort)
    case Bairro =>
      LengthCheck(Trim(Text(p, "bairro")), 2, BairroMissing, BairroShort)
    case Preco =>
      if Value(p, "categoria") == Some("Venda") then
        AmountCheck(Value(p, "preco"), form.number, PrecoMissing, PrecoNotPositive)
      else None
    case ValorAluguel =>
      if Value(p, "categoria") == Some("Aluguel") then
        AmountCheck(Value(p, "valorAluguel"), form.number, AluguelMissing, AluguelNotPositive)
      else None
    case AreaM2 =>
      AmountCheck(Value(p, "areaM2"), form.number, AreaMissing, AreaNotPositive)
    case Quartos =>
      if Value(p, "quartos") == Some("") then Some(QuartosMissing)
      else CountCheck(Value(p, "quartos"), form.number, QuartosInvalid)
    case Suites =>
      if Value(p, "suites") == Some("") then None
      else CountCheck(Value(p, "suites"), form.number, SuitesInvalid)
    case Vagas =>
      if Value(p, "vagas") == Some("") then None
      else CountCheck(Value(p, "vagas"), form.number, VagasInvalid)
    case Fotos => FotosVerdict(form.selectedFiles, form.fotos, form.isValidImageUrl)
  }

  /** Every field's verdict on `form`. */
  function Checks(form: Form): FormField -> Option<string> {
    field => Verdict(form, field)
  }

  type Verdicts = FormField -> Option<string>

  /** The failing fields of `fields`, in order, under their keys and with
      their messages. */
  function Report(verdict: Verdicts, fields: seq<FormField>): Fields {
    if fields == [] then []
    else Entry(verdict, fields[0]) + Report(verdict, fields[1..])
  }

  function Entry(verdict: Verdicts, field: FormField): Fields {
    match verdict(field)
    case None => []
    case Some(msg) => [(Name(field), msg)]
  }

  /** A key of the report is the key of a failing field of `fields`. */
  lemma {:induction false} ReportKeys(verdict: Verdicts, fields: seq<FormField>)
    ensures forall k :: k in Keys(Report(verdict, fields)) <==>
              exists f :: f in fields && verdict(f).Some? && Name(f) == k
  {
    if fields != [] {
      ReportKeys(verdict, fields[1..]);
      KeysConcat(Entry(verdict, fields[0]), Report(verdict, fields[1..]));
      assert fields == [fields[0]] + fields[1..];
    }
  }

  /** Reporting one more field adds its entry at the end. */
  lemma {:induction false} ReportSnoc(verdict: Verdicts, fields: seq<FormField>, field: FormField)
    ensures Report(verdict, fields + [field]) == Report(verdict, fields) + Entry(verdict, field)
  {
    if fields == [] {
      assert [] + [field] == [field];
    } else {
      assert (fields + [field])[1..] == fields[1..] + [field];
      ReportSnoc(verdict, fields[1..], field);
    }
  }

  /** In a report, each field's key reads as the field's message. */
  lemma {:induction false} ReportGet(verdict: Verdicts, fields: seq<FormField>, field: FormField)
    ensures Get(Report(verdict, fields), Name(field)) == if field in fields then verdict(field) else None
  {
    if fields != [] {
      ReportGet(verdict, fields[1..], field);
      var f0, rest := fields[0], Report(verdict, fields[1..]);
      assert field in fields <==> field == f0 || field in fields[1..] by {
        assert fields == [f0] + fields[1..];
      }
      match verdict(f0)
      case None =>
        assert Report(verdict, fields) == rest;
      case Some(m) =>
        var r := [(Name(f0), m)] + rest;
        assert Report(verdict, fields) == r;
        assert r[0] == (Name(f0), m) && r[1..] == rest;
        if Name(f0) == Name(field) {
          NameInjective(f0, field);
        }
    }
  }

  /** No key outside the form's fields is in a report. */
  lemma ReportOtherKey(verdict: Verdicts, fields: seq<FormField>, k: string)
    requires forall f: FormField :: Name(f) != k
    ensures Get(Report(verdict, fields), k).None?
  {
    ReportKeys(verdict, fields);
  }

  /** The field checked in turn `i`, and the turn of each field. */
  function FieldAt(i: nat): FormField
    requires i < FieldCount
  {
    if i == 0 then Titulo else if i == 1 then Descricao else if i == 2 then Cidade
    else if i == 3 then Bairro else if i == 4 then Preco else if i == 5 then ValorAluguel
    else if i == 6 then AreaM2 else if i == 7 then Quartos else if i == 8 then Suites
    else if i == 9 then Vagas else Fotos
  }

  function Turn(field: FormField): nat {
    match field
    case Titulo => 0 case Descricao => 1 case Cidade => 2 case Bairro => 3 case Preco => 4
    case ValorAluguel => 5 case AreaM2 => 6 case Quartos => 7 case Suites => 8 case Vagas => 9
    case Fotos => 10
  }

  lemma FormOrderAt(i: nat)
    requires i < FieldCount
    ensures |FormOrder| == FieldCount && FormOrder[i] == FieldAt(i) && Turn(FieldAt(i)) == i
  {
  }

  /** The number of checked fields, the length of `FormOrder`. */
  const FieldCount: nat := 11

  /** The report of the first `n` fields checked. */
  function ReportUpTo(verdict: Verdicts, n: nat): Fields
    requires n <= FieldCount
  {
    if n == 0 then [] else ReportUpTo(verdict, n - 1) + Entry(verdict, FieldAt(n - 1))
  }

  /** A field not yet checked has no key in the object. */
  lemma {:induction false} NotYetReported(verdict: Verdicts, n: nat, m: nat)
    requires n <= m < FieldCount
    ensures Name(FieldAt(m)) !in Keys(ReportUpTo(verdict, n))
  {
    if n > 0 {
      NotYetReported(verdict, n - 1, m);
      KeysConcat(ReportUpTo(verdict, n - 1), Entry(verdict, FieldAt(n - 1)));
      FormOrderAt(n - 1);
      FormOrderAt(m);
      if Name(FieldAt(n - 1)) == Name(FieldAt(m)) {
        NameInjective(FieldAt(n - 1), FieldAt(m));
      }
    }
  }

  /** Checking the next field appends its entry, if it fails. */
  lemma Advance(verdict: Verdicts, n: nat, errors: Fields)
    requires n < FieldCount && errors == ReportUpTo(verdict, n)
    ensures verdict(FieldAt(n)).Some? ==>
              Put(errors, Name(FieldAt(n)), verdict(FieldAt(n)).value) == ReportUpTo(verdict, n + 1)
    ensures verdict(FieldAt(n)).None? ==> errors == ReportUpTo(verdict, n + 1)
  {
    NotYetReported(verdict, n, n);
    if verdict(FieldAt(n)).Some? {
      PutNew(errors, Name(FieldAt(n)), verdict(FieldAt(n)).value);
    } else {
      assert errors + [] == errors;
    }
  }

  /** After the last field the object is the report in `FormOrder`. */
  lemma {:induction false} ReportUpToPrefix(verdict: Verdicts, n: nat)
    requires n <= FieldCount
    ensures ReportUpTo(verdict, n) == Report(verdict, FormOrder[..n])
  {
    if n > 0 {
      ReportUpToPrefix(verdict, n - 1);
      FormOrderAt(n - 1);
      assert FormOrder[..n] == FormOrder[..n - 1] + [FieldAt(n - 1)];
      ReportSnoc(verdict, FormOrder[..n - 1], FieldAt(n - 1));
    }
  }

  /** The entry a key holds after its assignments so far, if any. */
  function Assigned(key: string, last: Option<string>): Fields {
    if last.None? then [] else [(key, last.value)]
  }

  /** A further assignment of the last key replaces its value. */
  lemma PutLast(base: Fields, key: string, last: Option<string>, msg: string)
    requires key !in Keys(base)
    ensures Put(base + Assigned(key, last), key, msg) == base + Assigned(key, Some(msg))
  {
    if last.None? {
      assert base + [] == base;
      PutNew(base, key, msg);
    } else {
      PutLastReplaces(base, key, last.value, msg);
    }
  }

  /** The check of a required text: empty after trimming, or too short. */
  method CheckText(errors: Fields, ghost verdict: Verdicts, ghost n: nat,
                   field: FormField, value: string, min: nat, missing: string, tooShort: string)
    returns (next: Fields)
    requires n < FieldCount && FieldAt(n) == field
    requires errors == ReportUpTo(verdict, n)
    requires verdict(field) == LengthCheck(Trim(value), min, missing, tooShort)
    ensures next == ReportUpTo(verdict, n + 1)
  {
    Advance(verdict, n, errors);
    next := errors;
    var text := Trim(value);
    if text == "" {
      next := Put(errors, Name(field), missing);
    } else if |text| < min {
      next := Put(errors, Name(field), tooShort);
    }
  }

  /** The check of a required positive amount. */
  method CheckAmount(errors: Fields, ghost verdict: Verdicts, ghost n: nat,
                     field: FormField, value: Option<string>, number: string -> JsNumber, missing: string, notPositive: string)
    returns (next: Fields)
    requires n < FieldCount && FieldAt(n) == field
    requires errors == ReportUpTo(verdict, n)
    requires verdict(field) == AmountCheck(value, number, missing, notPositive)
    ensures next == ReportUpTo(verdict, n + 1)
  {
    Advance(verdict, n, errors);
    next := errors;
    if value.None? || value.value == "" {
      next := Put(errors, Name(field), missing);
    } else if AtMostZero(number(value.value)) {
      next := Put(errors, Name(field), notPositive);
    }
  }

  /** The check of a count, where an empty value gets `missing` when there is
      one and passes otherwise. */
  method CheckCount(errors: Fields, ghost verdict: Verdicts, ghost n: nat,
                    field: FormField, value: Option<string>, number: string -> JsNumber, missing: Option<string>, msg: string)
    returns (next: Fields)
    requires n < FieldCount && FieldAt(n) == field
    requires errors == ReportUpTo(verdict, n)
    requires verdict(field) == if value == Some("") then missing else CountCheck(value, number, msg)
    ensures next == ReportUpTo(verdict, n + 1)
  {
    Advance(verdict, n, errors);
    next := errors;
    if value == Some("") {
      if missing.Some? {
        next := Put(errors, Name(field), missing.value);
      }
    } else if !NonNegativeInteger(NumberOf(number, value)) {
      next := Put(errors, Name(field), msg);
    }
  }

  /** One photo check: when it fails, its message replaces whatever the
      key held. */
  method Overwrite(next: Fields, ghost base: Fields, key: string, ghost last: Option<string>, failed: bool, msg: string)
    returns (after: Fields, ghost now: Option<string>)
    requires key !in Keys(base) && next == base + Assigned(key, last)
    ensures now == if failed then Some(msg) else last
    ensures after == base + Assigned(key, now)
  {
    after, now := next, last;
    if failed {
      PutLast(base, key, last, msg);
      after, now := Put(next, key, msg), Some(msg);
    }
  }

  /** The four photo checks, each overwriting `fotos`. */
  method CheckFotos(errors: Fields, ghost verdict: Verdicts, ghost n: nat,
                    selectedFiles: seq<File>, fotos: seq<string>, isValidImageUrl: string -> bool)
    returns (next: Fields)
    requires n < FieldCount && FieldAt(n) == Fotos
    requires errors == ReportUpTo(verdict, n)
    requires verdict(Fotos) == FotosVerdict(selectedFiles, fotos, isValidImageUrl)
    ensures next == ReportUpTo(verdict, n + 1)
  {
    NotYetReported(verdict, n, n);
    var key := Name(Fotos);
    ghost var last: Option<string> := None;
    assert errors == errors + Assigned(key, last);
    next, last := Overwrite(errors, errors, key, last, |selectedFiles| > MaxUploadFiles, TooManyFiles);
    next, last := Overwrite(next, errors, key, last, SomeNotImage(selectedFiles), NotAllImages);
    next, last := Overwrite(next, errors, key, last, SomeTooLarge(selectedFiles), TooLarge);
    next, last := Overwrite(next, errors, key, last, SomeInvalidUrl(fotos, isValidImageUrl), InvalidUrls);
    assert last == verdict(Fotos);
    assert Assigned(key, last) == Entry(verdict, Fotos);
  }

  /** The four required texts, turns 0 to 3. */
  method CheckTexts(errors: Fields, form: Form) returns (next: Fields)
    requires errors == []
    ensures next == ReportUpTo(Checks(form), 4)
  {
    var p := form.payload;
    next := CheckText(errors, Checks(form), 0, Titulo, Text(p, "titulo"), 3, TituloMissing, TituloShort);
    next := CheckText(next, Checks(form), 1, Descricao, Text(p, "descricao"), 10, DescricaoMissing, DescricaoShort);
    next := CheckText(next, Checks(form), 2, Cidade, Text(p, "cidade"), 2, CidadeMissing, CidadeShort);
    next := CheckText(next, Checks(form), 3, Bairro, Text(p, "bairro"), 2, BairroMissing, BairroShort);
  }

  /** The sale price or the rent, as the category asks, and the area: turns
      4 to 6. */
  method CheckAmounts(errors: Fields, form: Form) returns (next: Fields)
    requires errors == ReportUpTo(Checks(form), 4)
    ensures next == ReportUpTo(Checks(form), 7)
  {
    var p := form.payload;
    next := errors;
    if Value(p, "categoria") == Some("Venda") {
      next := CheckAmount(next, Checks(form), 4, Preco, Value(p, "preco"), form.number, PrecoMissing, PrecoNotPositive);
    } else {
      Advance(Checks(form), 4, next);
    }
    if Value(p, "categoria") == Some("Aluguel") {
      next := CheckAmount(next, Checks(form), 5, ValorAluguel, Value(p, "valorAluguel"), form.number,
                          AluguelMissing, AluguelNotPositive);
    } else {
      Advance(Checks(form), 5, next);
    }
    next := CheckAmount(next, Checks(form), 6, AreaM2, Value(p, "areaM2"), form.number, AreaMissing, AreaNotPositive);
  }

  /** The three counts, turns 7 to 9. */
  method CheckCounts(errors: Fields, form: Form) returns (next: Fields)
    requires errors == ReportUpTo(Checks(form), 7)
    ensures next == ReportUpTo(Checks(form), 10)
  {
    var p := form.payload;
    next := CheckCount(errors, Checks(form), 7, Quartos, Value(p, "quartos"), form.number, Some(QuartosMissing), QuartosInvalid);
    next := CheckCount(next, Checks(form), 8, Suites, Value(p, "suites"), form.number, None, SuitesInvalid);
    next := CheckCount(next, Checks(form), 9, Vagas, Value(p, "vagas"), form.number, None, VagasInvalid);
  }

  /** `validatePayload`: the fields are checked one after the other, in
      `FormOrder`, and each failing one gets its message. */
  method ValidatePayload(payload: Payload, selectedFiles: seq<File>, fotos: seq<string>,
                         number: string -> JsNumber, isValidImageUrl: string -> bool)
    returns (errors: Fields)
    ensures errors == Report(Checks(Form(payload, selectedFiles, fotos, number, isValidImageUrl)), FormOrder)
  {
    var form := Form(payload, selectedFiles, fotos, number, isValidImageUrl);
    errors := CheckTexts([], form);
    errors := CheckAmounts(errors, form);
    errors := CheckCounts(errors, form);
    errors := CheckFotos(errors, Checks(form), 10, selectedFiles, fotos, isValidImageUrl);
    ReportUpToAll(Checks(form));
  }

  /** After every turn the object is the report in `FormOrder`. */
  lemma ReportUpToAll(verdict: Verdicts)
    ensures ReportUpTo(verdict, FieldCount) == Report(verdict, FormOrder)
  {
    ReportUpToPrefix(verdict, FieldCount);
    FormOrderAt(0);
    assert FormOrder[..FieldCount] == FormOrder;
  }

  /** Each field turns up in `FormOrder`, at its turn. */
  lemma TurnInOrder(field: FormField)
    ensures Turn(field) < |FormOrder| && FormOrder[Turn(field)] == field && FieldAt(Turn(field)) == field
  {
    FormOrderAt(Turn(field));
  }

  /** After `validatePayload` each field's key reads as that field's message,
      and so the object is empty exactly when no field fails. */
  lemma ValidationMessages(form: Form, field: FormField)
    ensures Get(Report(Checks(form), FormOrder), Name(field)) == Verdict(form, field)
  {
    TurnInOrder(field);
    ReportGet(Checks(form), FormOrder, field);
  }

  /** A field's messages are never empty, so JavaScript reads each as truthy. */
  lemma VerdictMessagesNonEmpty(form: Form, field: FormField)
    ensures Verdict(form, field).Some? ==> Verdict(form, field).value != ""
  {
    var m := Verdict(form, field);
    if m.Some? {
      if field == Fotos {
        assert |TooManyFiles| > 0;
      }
      assert |m.value| > 0;
    }
  }

  /** A required text passes exactly when it is at least `min` characters
      long after trimming; an empty one gets the first message. */
  lemma LengthCheckCases(text: string, min: nat, missing: string, tooShort: string)
    requires min >= 1
    ensures LengthCheck(text, min, missing, tooShort).None? <==> |text| >= min
    ensures text == "" ==> LengthCheck(text, min, missing, tooShort) == Some(missing)
    ensures text != "" && |text| < min ==> LengthCheck(text, min, missing, tooShort) == Some(tooShort)
  {
  }

  /** The four texts: each fails exactly when it is shorter than its minimum
      after trimming (so `ValidationMessages` gives it a key). */
  lemma TextFieldsChecked(form: Form)
    ensures Verdict(form, Titulo).None? <==> |Trim(Text(form.payload, "titulo"))| >= 3
    ensures Verdict(form, Descricao).None? <==> |Trim(Text(form.payload, "descricao"))| >= 10
    ensures Verdict(form, Cidade).None? <==> |Trim(Text(form.payload, "cidade"))| >= 2
    ensures Verdict(form, Bairro).None? <==> |Trim(Text(form.payload, "bairro"))| >= 2
  {
  }

  /** The sale price is checked only for a sale and the rent only for a
      rental, and there an empty or missing amount is asked for. */
  lemma AmountsFollowCategory(form: Form)
    ensures Verdict(form, Preco).Some? ==> Value(form.payload, "categoria") == Some("Venda")
    ensures Verdict(form, ValorAluguel).Some? ==> Value(form.payload, "categoria") == Some("Aluguel")
    ensures Value(form.payload, "categoria") == Some("Venda") && Text(form.payload, "preco") == "" ==>
              Verdict(form, Preco) == Some(PrecoMissing)
    ensures Value(form.payload, "categoria") == Some("Aluguel") && Text(form.payload, "valorAluguel") == "" ==>
              Verdict(form, ValorAluguel) == Some(AluguelMissing)
  {
  }

  /** An amount `Number` cannot read is `NaN`, which is not `<= 0`, so it
      passes the area check. */
  lemma UnreadableAreaPasses(form: Form, area: string)
    requires Value(form.payload, "areaM2") == Some(area) && area != "" && form.number(area) == NaN
    ensures Verdict(form, AreaM2).None?
  {
  }

  /** The bedrooms' count is required, while an empty suites or parking count
      passes; a count missing from the payload is `NaN` and is refused. */
  lemma CountCases(form: Form)
    ensures Value(form.payload, "quartos") == Some("") ==> Verdict(form, Quartos) == Some(QuartosMissing)
    ensures Value(form.payload, "quartos").None? ==> Verdict(form, Quartos) == Some(QuartosInvalid)
    ensures Value(form.payload, "suites") == Some("") ==> Verdict(form, Suites).None?
    ensures Value(form.payload, "suites").None? ==> Verdict(form, Suites) == Some(SuitesInvalid)
    ensures Value(form.payload, "vagas") == Some("") ==> Verdict(form, Vagas).None?
    ensures Value(form.payload, "vagas").None? ==> Verdict(form, Vagas) == Some(VagasInvalid)
  {
  }

  /** The photos pass exactly when every URL is valid and the local files are
      at most eight images of at most 5 MB; so the state the photo picker
      keeps, with its corrected cap, always passes. */
  lemma FotosCases(selectedFiles: seq<File>, fotos: seq<string>, isValidImageUrl: string -> bool)
    ensures FotosVerdict(selectedFiles, fotos, isValidImageUrl).None? <==>
              (forall u :: u in fotos ==> isValidImageUrl(u))
              && (forall f :: f in selectedFiles ==> Admissible(f))
              && |selectedFiles| <= MaxUploadFiles
    ensures FilesOk(selectedFiles) && (forall u :: u in fotos ==> isValidImageUrl(u)) ==>
              FotosVerdict(selectedFiles, fotos, isValidImageUrl).None?
  {
  }

  lemma PickerPasses(picker: PhotoPicker)
    requires picker.Valid()
    ensures FotosVerdict(picker.selectedFiles, picker.fotos, picker.isValidImageUrl).None?
  {
    FotosCases(picker.selectedFiles, picker.fotos, picker.isValidImageUrl);
  }

  /** The keys `sanitizePayload` cleans. */
  const SanitizedKeys: seq<string> := ["titulo", "descricao", "cidade", "bairro", "categoria", "mobilado", "aceitaPet", "fotos"]

  /** The payload after `sanitizePayload`: a listed key with a non-empty value
      loses its angle brackets, and nothing else changes. */
  function Sanitized(payload: Payload): (r: Payload)
    ensures r.Keys == payload.Keys
    ensures forall key :: key in payload && key !in SanitizedKeys ==> r[key] == payload[key]
    ensures forall key :: key in payload && key in SanitizedKeys ==> r[key] == SanitizeInput(payload[key])
    ensures forall key :: key in payload && key in SanitizedKeys ==> '<' !in r[key] && '>' !in r[key]
  {
    map key | key in payload :: if key in SanitizedKeys && payload[key] != "" then SanitizeInput(payload[key]) else payload[key]
  }

  /** `result` is `payload` with the keys of `keys` sanitised. */
  ghost predicate SanitizedFor(payload: Payload, result: Payload, keys: seq<string>) {
    && result.Keys == payload.Keys
    && forall key :: key in result ==>
         result[key] == if key in keys && payload[key] != "" then SanitizeInput(payload[key]) else payload[key]
  }

  /** Sanitising one more key; a key met again is left as it is, because
      sanitising is idempotent. */
  lemma SanitizeStep(payload: Payload, result: Payload, keys: seq<string>, key: string)
    requires SanitizedFor(payload, result, keys)
    ensures SanitizedFor(payload, if key in result && result[key] != "" then result[key := SanitizeInput(result[key])] else result,
                         keys + [key])
  {
    if key in result {
      SanitizeIdempotent(payload[key]);
    }
  }

  /** `sanitizePayload`, which rewrites the listed keys one after the other. */
  method SanitizePayload(payload: Payload) returns (result: Payload)
    ensures result == Sanitized(payload)
  {
    result := payload;
    for i := 0 to |SanitizedKeys|
      invariant SanitizedFor(payload, result, SanitizedKeys[..i])
    {
      var key := SanitizedKeys[i];
      SanitizeStep(payload, result, SanitizedKeys[..i], key);
      assert SanitizedKeys[..i + 1] == SanitizedKeys[..i] + [key];
      if key in result && result[key] != "" {
        result := result[key := SanitizeInput(result[key])];
      }
    }
    assert SanitizedKeys[..|SanitizedKeys|] == SanitizedKeys;
  }

  /** Sanitising an already sanitised payload changes nothing. */
  lemma SanitizedIdempotent(payload: Payload)
    ensures Sanitized(Sanitized(payload)) == Sanitized(payload)
  {
    var once := Sanitized(payload);
    forall key | key in once
      ensures Sanitized(once)[key] == once[key]
    {
      if key in SanitizedKeys && payload[key] != "" {
        SanitizeIdempotent(payload[key]);
      }
    }
  }

  /** A JavaScript-falsy message. */
  predicate HasMessage(entry: (string, string)) {
    entry.1 != ""
  }

  /** `normalizeServerFieldErrors`: the server's fields with a truthy message,
      in their order. */
  method NormalizeServerFieldErrors(serverFields: Fields) returns (mapped: Fields)
    requires DistinctKeys(serverFields)
    ensures mapped == Filter(serverFields, HasMessage)
  {
    mapped := [];
    for i := 0 to |serverFields|
      invariant mapped == Filter(serverFields[..i], HasMessage)
    {
      var (name, message) := serverFields[i];
      assert serverFields[..i + 1] == serverFields[..i] + [serverFields[i]];
      FilterSnoc(serverFields[..i], serverFields[i], HasMessage);
      if message != "" {
        KeyNotEarlier(serverFields, i);
        PutNew(mapped, name, message);
        mapped := Put(mapped, name, message);
      }
    }
    assert serverFields[..|serverFields|] == serverFields;
  }

  /** In an object the key at `i` is not among the kept keys before it. */
  lemma KeyNotEarlier(serverFields: Fields, i: nat)
    requires DistinctKeys(serverFields) && i < |serverFields|
    ensures serverFields[i].0 !in Keys(Filter(serverFields[..i], HasMessage))
  {
    var kept := Filter(serverFields[..i], HasMessage);
    FilterMembers(serverFields[..i], HasMessage);
    forall k | 0 <= k < |kept|
      ensures Keys(kept)[k] != serverFields[i].0
    {
      assert kept[k] in kept;
      var j :| 0 <= j < i && serverFields[..i][j] == kept[k];
      assert serverFields[j] == kept[k];
    }
  }

  /** Filtering cannot bring in a key. */
  lemma {:induction false} FilterAbsent(fields: Fields, key: string)
    requires Get(fields, key).None?
    ensures Get(Filter(fields, HasMessage), key).None?
  {
    if fields != [] {
      var e, rest := fields[0], fields[1..];
      FilterAbsent(rest, key);
      assert fields == [e] + rest;
      FilterCons(e, rest, HasMessage);
      var kept := Filter(rest, HasMessage);
      if HasMessage(e) {
        assert ([e] + kept)[0] == e && ([e] + kept)[1..] == kept;
      }
    }
  }

  /** After normalising, a field reads as the server's message when that is
      truthy and is absent otherwise. */
  lemma {:induction false} NormalizedGet(serverFields: Fields, key: string)
    requires DistinctKeys(serverFields)
    ensures Get(Filter(serverFields, HasMessage), key) ==
              if Get(serverFields, key).Some? && Get(serverFields, key).value != "" then Get(serverFields, key) else None
  {
    if serverFields != [] {
      var e, rest := serverFields[0], serverFields[1..];
      assert DistinctKeys(rest);
      assert serverFields == [e] + rest;
      FilterCons(e, rest, HasMessage);
      var kept := Filter(rest, HasMessage);
      var whole := Filter(serverFields, HasMessage);
      if HasMessage(e) {
        assert whole == [e] + kept;
        assert whole[0] == e && whole[1..] == kept;
      } else {
        assert whole == kept;
      }
      if e.0 == key {
        assert Get(serverFields, key) == Some(e.1);
        assert key !in Keys(rest);
        FilterAbsent(rest, key);
      } else {
        assert Get(serverFields, key) == Get(rest, key);
        NormalizedGet(rest, key);
      }
    }
  }

  /** Normalising twice is normalising once. */
  lemma NormalizeIdempotent(serverFields: Fields)
    ensures Filter(Filter(serverFields, HasMessage), HasMessage) == Filter(serverFields, HasMessage)
  {
    FilterFilter(serverFields, HasMessage, HasMessage, HasMessage);
  }

  const ReviewFields := "Revise os campos destacados e tente novamente."

  /** `getFirstValidationMessage`: the first truthy message, else the request
      to review the highlighted fields. */
  function FirstValidationMessage(errors: Fields): (m: string)
    ensures m != ""
  {
    Find(Values(errors), NonEmpty).GetOr(ReviewFields)
  }

  /** The message is the one at the first field with a truthy message, and the
      fallback exactly when there is none. */
  lemma FirstValidationMessageCases(errors: Fields, i: nat)
    requires i < |errors| && errors[i].1 != "" && forall j :: 0 <= j < i ==> errors[j].1 == ""
    ensures FirstValidationMessage(errors) == errors[i].1
  {
    FindAt(Values(errors), NonEmpty, i);
  }

  lemma FirstValidationMessageFallback(errors: Fields)
    ensures (forall j :: 0 <= j < |errors| ==> errors[j].1 == "") <==> Find(Values(errors), NonEmpty).None?
    ensures (forall j :: 0 <= j < |errors| ==> errors[j].1 == "") ==> FirstValidationMessage(errors) == ReviewFields
  {
  }

  /** Normalising the server's fields does not change which message comes
      first. */
  lemma {:induction false} NormalizeKeepsFirstMessage(serverFields: Fields)
    ensures FirstValidationMessage(Filter(serverFields, HasMessage)) == FirstValidationMessage(serverFields)
  {
    if serverFields != [] {
      var e, rest := serverFields[0], serverFields[1..];
      NormalizeKeepsFirstMessage(rest);
      assert serverFields == [e] + rest;
      FilterCons(e, rest, HasMessage);
      var kept := Filter(rest, HasMessage);
      if HasMessage(e) {
        assert Values([e] + kept)[0] == e.1;
        FindAt(Values([e] + kept), NonEmpty, 0);
        FindAt(Values(serverFields), NonEmpty, 0);
      } else {
        assert Values(serverFields)[1..] == Values(rest);
        assert Filter(serverFields, HasMessage) == kept;
      }
    }
  }

  /** The report is empty exactly when no field fails. */
  lemma {:induction false} ReportEmpty(verdict: Verdicts, fields: seq<FormField>)
    ensures Report(verdict, fields) == [] <==> forall j :: 0 <= j < |fields| ==> verdict(fields[j]).None?
  {
    if fields != [] {
      ReportEmpty(verdict, fields[1..]);
      forall j | 0 < j < |fields|
        ensures fields[j] == fields[1..][j - 1]
      {
      }
    }
  }

  /** A non-empty report's first message is the message of the first
      failing field. */
  lemma {:induction false} ReportFirstMessage(verdict: Verdicts, fields: seq<FormField>)
    requires forall f: FormField :: verdict(f).Some? ==> verdict(f).value != ""
    ensures Report(verdict, fields) != [] ==>
              exists i :: 0 <= i < |fields| && verdict(fields[i]).Some?
                && (forall j :: 0 <= j < i ==> verdict(fields[j]).None?)
                && FirstValidationMessage(Report(verdict, fields)) == verdict(fields[i]).value
  {
    if fields != [] {
      var rest := fields[1..];
      ReportFirstMessage(verdict, rest);
      if verdict(fields[0]).Some? {
        ReportFirstFails(verdict, fields);
      } else if Report(verdict, fields) != [] {
        assert Report(verdict, fields) == Report(verdict, rest);
        var i :| 0 <= i < |rest| && verdict(rest[i]).Some?
                 && (forall j :: 0 <= j < i ==> verdict(rest[j]).None?)
                 && FirstValidationMessage(Report(verdict, rest)) == verdict(rest[i]).value;
        PassingPrefix(verdict, fields, i);
        assert fields[i + 1] == rest[i];
      }
    }
  }

  /** When the first field fails, its message comes first. */
  lemma ReportFirstFails(verdict: Verdicts, fields: seq<FormField>)
    requires fields != [] && verdict(fields[0]).Some? && verdict(fields[0]).value != ""
    ensures FirstValidationMessage(Report(verdict, fields)) == verdict(fields[0]).value
  {
    var whole := Report(verdict, fields);
    assert whole == [(Name(fields[0]), verdict(fields[0]).value)] + Report(verdict, fields[1..]);
    assert Values(whole)[0] == verdict(fields[0]).value;
    FindAt(Values(whole), NonEmpty, 0);
  }

  /** A passing first field followed by `i` passing fields. */
  lemma PassingPrefix(verdict: Verdicts, fields: seq<FormField>, i: nat)
    requires i < |fields| - 1 && verdict(fields[0]).None?
    requires forall j :: 0 <= j < i ==> verdict(fields[1..][j]).None?
    ensures forall j :: 0 <= j < i + 1 ==> verdict(fields[j]).None?
  {
    forall j | 0 < j <= i
      ensures fields[j] == fields[1..][j - 1]
    {
    }
  }

  /** The form is sent when nothing fails; otherwise its errors are shown
      with the first failing field's message. The request body is the form
      data as entered, not the sanitised payload. */
  datatype Submission = Blocked(errors: Fields, status: string) | Sent(body: Payload)

  /** After `validatePayload`, the object is empty exactly when no field
      fails, and otherwise `getFirstValidationMessage` gives the message of
      the first failing field in `FormOrder`. */
  lemma ValidationOutcome(form: Form)
    ensures Report(Checks(form), FormOrder) == [] <==> forall f: FormField :: Verdict(form, f).None?
    ensures Report(Checks(form), FormOrder) != [] ==>
              exists i :: 0 <= i < |FormOrder| && Verdict(form, FormOrder[i]).Some?
                && (forall j :: 0 <= j < i ==> Verdict(form, FormOrder[j]).None?)
                && FirstValidationMessage(Report(Checks(form), FormOrder)) == Verdict(form, FormOrder[i]).value
  {
    ChecksNonEmpty(form);
    ReportEmpty(Checks(form), FormOrder);
    ReportFirstMessage(Checks(form), FormOrder);
    EveryFieldInOrder(form);
  }

  lemma ChecksNonEmpty(form: Form)
    ensures forall f: FormField :: Checks(form)(f).Some? ==> Checks(form)(f).value != ""
  {
    forall f: FormField
      ensures Checks(form)(f).Some? ==> Checks(form)(f).value != ""
    {
      VerdictMessagesNonEmpty(form, f);
    }
  }

  /** The fields of `FormOrder` are all the fields. */
  lemma EveryFieldInOrder(form: Form)
    ensures (forall j :: 0 <= j < |FormOrder| ==> Verdict(form, FormOrder[j]).None?) ==>
              forall f: FormField :: Verdict(form, f).None?
  {
    if forall j :: 0 <= j < |FormOrder| ==> Verdict(form, FormOrder[j]).None? {
      forall f: FormField
        ensures Verdict(form, f).None?
      {
        TurnInOrder(f);
      }
    }
  }

  /** The checks of the submit handler before anything is sent. */
  method Submit(payload: Payload, selectedFiles: seq<File>, fotos: seq<string>,
                number: string -> JsNumber, isValidImageUrl: string -> bool)
    returns (s: Submission)
    ensures s.Sent? <==> forall f: FormField ::
              Verdict(Form(Sanitized(payload), selectedFiles, fotos, number, isValidImageUrl), f).None?
    ensures s.Sent? ==> s.body == payload
    ensures s.Blocked? ==>
              s.errors == Report(Checks(Form(Sanitized(payload), selectedFiles, fotos, number, isValidImageUrl)), FormOrder)
              && s.status == FirstValidationMessage(s.errors)
  {
    var clean := SanitizePayload(payload);
    var errors := ValidatePayload(clean, selectedFiles, fotos, number, isValidImageUrl);
    ValidationOutcome(Form(clean, selectedFiles, fotos, number, isValidImageUrl));
    if errors != [] {
      s := Blocked(errors, FirstValidationMessage(errors));
    } else {
      s := Sent(payload);
    }
  }

  const SaveFailed := "Erro ao salvar."

  /** The status after the server refuses the form: its `error` text, else
      the first message of its normalised fields, else the save failure. */
  function RefusedStatus(error: Option<string>, serverFields: Fields): string {
    if error.GetOr("") != "" then error.value
    else
      var m := FirstValidationMessage(Filter(serverFields, HasMessage));
      if m != "" then m else SaveFailed
  }

  /** The save failure is never reached: without an error text the status is
      the first server message, or the request to review the fields. */
  lemma RefusedStatusCases(error: Option<string>, serverFields: Fields)
    ensures error.GetOr("") != "" ==> RefusedStatus(error, serverFields) == error.value
    ensures error.GetOr("") == "" ==> RefusedStatus(error, serverFields) == FirstValidationMessage(serverFields)
    ensures RefusedStatus(error, serverFields) == SaveFailed ==>
              error == Some(SaveFailed) || SaveFailed in Values(serverFields)
  {
    NormalizeKeepsFirstMessage(serverFields);
    if error.GetOr("") == "" && RefusedStatus(error, serverFields) == SaveFailed {
      assert |SaveFailed| != |ReviewFields|;
    }
  }
}
