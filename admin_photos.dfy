/** The photos of the admin form (src/public/admin/admin.js): the list of
    photo URLs and the list of local files chosen for upload, with the
    handlers that add to them (243-261, 263-310), the remove buttons (56-60,
    73-78) and the clear button (319-328). Files are admitted one by one: a
    file already chosen (same name, size and modification time), a file that
    is not an image or one over 5 MB is refused with a message, and at most
    eight files may be chosen in all. */
module AdminPhotos {
  import opened Wrappers
  import opened Strings
  import opened Seqs

  const MaxUploadFiles: int := 8
  const MaxFileSizeBytes: int := 5 * 1024 * 1024
  const AllowedFileTypePrefix := "image/"

  /** A chosen file: `name`, `size` in bytes, `lastModified` and `type` (here
      `mime`). */
  datatype File = File(name: string, size: nat, lastModified: int, mime: string)

  /** `buildFileFingerprint`: `name:size:lastModified`. */
  function Fingerprint(f: File): string {
    f.name + ":" + NatToString(f.size) + ":" + IntToString(f.lastModified)
  }

  /** The part after the last ':' is determined, and so is the part before. */
  lemma LastColonSplit(a: string, y: string, b: string, z: string)
    requires ':' !in y && ':' !in z && a + ":" + y == b + ":" + z
    ensures a == b && y == z
  {
    var s := a + ":" + y;
    ColonFreeTail(a, y);
    ColonFreeTail(b, z);
    assert |y| == |z|;
    assert y == s[|s| - |y|..] == z;
    assert a == s[..|a|] == b;
  }

  /** The last ':' of `a:y` is the one before `y` when `y` has none. */
  lemma ColonFreeTail(a: string, y: string)
    requires ':' !in y
    ensures var s := a + ":" + y;
            s[|s| - |y| - 1] == ':' && forall k :: |s| - |y| <= k < |s| ==> s[k] != ':'
  {
    var s := a + ":" + y;
    assert forall k :: |s| - |y| <= k < |s| ==> s[k] == y[k - (|s| - |y|)];
  }

  /** Neither a size nor a time contributes a ':'. */
  lemma NumbersHaveNoColon(n: nat, i: int)
    ensures ':' !in NatToString(n) && ':' !in IntToString(i)
  {
  }

  /** Files with the same fingerprint agree on name, size and modification
      time, even when names contain ':'. */
  lemma FingerprintInjective(f: File, g: File)
    requires Fingerprint(f) == Fingerprint(g)
    ensures f.name == g.name && f.size == g.size && f.lastModified == g.lastModified
  {
    NumbersHaveNoColon(f.size, f.lastModified);
    NumbersHaveNoColon(g.size, g.lastModified);
    LastColonSplit(f.name + ":" + NatToString(f.size), IntToString(f.lastModified),
                   g.name + ":" + NatToString(g.size), IntToString(g.lastModified));
    LastColonSplit(f.name, NatToString(f.size), g.name, NatToString(g.size));
    NatToStringInjective(f.size, g.size);
    IntToStringInjective(f.lastModified, g.lastModified);
  }

  /** A file the type and size checks let through. */
  predicate Admissible(f: File) {
    StartsWith(f.mime, AllowedFileTypePrefix) && f.size <= MaxFileSizeBytes
  }

  /** The message a file is refused with, in the order the checks run. */
  function Refusal(seen: set<string>, f: File): (r: Option<string>)
    ensures r.None? <==> Fingerprint(f) !in seen && Admissible(f)
  {
    if Fingerprint(f) in seen then Some("\"" + f.name + "\" ja foi selecionado.")
    else if !StartsWith(f.mime, AllowedFileTypePrefix) then Some("\"" + f.name + "\" nao e uma imagem valida.")
    else if f.size > MaxFileSizeBytes then Some("\"" + f.name + "\" excede 5 MB.")
    else None
  }

  /** The files a batch admits and the messages it produces. */
  datatype Screening = Screening(valid: seq<File>, errors: seq<string>)

  /** The `forEach` over a batch, given the fingerprints seen so far: an
      admitted file's fingerprint counts as seen for the rest of the batch. */
  function ScreenFrom(seen: set<string>, files: seq<File>): Screening
    decreases |files|
  {
    if files == [] then Screening([], [])
    else
      var f := files[0];
      match Refusal(seen, f)
      case Some(msg) =>
        var r := ScreenFrom(seen, files[1..]);
        Screening(r.valid, [msg] + r.errors)
      case None =>
        var r := ScreenFrom(seen + {Fingerprint(f)}, files[1..]);
        Screening([f] + r.valid, r.errors)
  }

  predicate DistinctFingerprints(files: seq<File>) {
    forall i, j :: 0 <= i < j < |files| ==> Fingerprint(files[i]) != Fingerprint(files[j])
  }

  function Fingerprints(files: seq<File>): set<string> {
    set f | f in files :: Fingerprint(f)
  }

  /** Every admitted file passed the checks and was not seen before, no two
      admitted files share a fingerprint, the admitted files keep their order
      in the batch, and every other file produced one message. */
  lemma {:induction false} ScreenAdmits(seen: set<string>, files: seq<File>)
    ensures forall f :: f in ScreenFrom(seen, files).valid ==> Admissible(f) && Fingerprint(f) !in seen
    ensures DistinctFingerprints(ScreenFrom(seen, files).valid)
    ensures IsSubsequence(ScreenFrom(seen, files).valid, files)
    ensures |ScreenFrom(seen, files).valid| + |ScreenFrom(seen, files).errors| == |files|
    decreases |files|
  {
    if files != [] {
      var f := files[0];
      var rest := files[1..];
      assert files == [f] + rest;
      match Refusal(seen, f)
      case Some(msg) =>
        ScreenAdmits(seen, rest);
        SubsequenceCons(ScreenFrom(seen, rest).valid, f, rest);
      case None =>
        var seen' := seen + {Fingerprint(f)};
        ScreenAdmits(seen', rest);
        var r := ScreenFrom(seen', rest);
        var v := [f] + r.valid;
        assert forall i :: 1 <= i < |v| ==> v[i] == r.valid[i - 1];
        assert forall i :: 1 <= i < |v| ==> v[i] in r.valid;
        SubsequenceKeepHead(r.valid, f, rest);
    }
  }

  lemma SubsequenceCons<T>(a: seq<T>, x: T, b: seq<T>)
    requires IsSubsequence(a, b)
    ensures IsSubsequence(a, [x] + b)
  {
    assert ([x] + b)[1..] == b;
  }

  lemma SubsequenceKeepHead<T>(a: seq<T>, x: T, b: seq<T>)
    requires IsSubsequence(a, b)
    ensures IsSubsequence([x] + a, [x] + b)
  {
    assert ([x] + a)[1..] == a && ([x] + b)[1..] == b;
  }

  /** `Limite de 8 arquivos locais atingido.` */
  const LimitReached := "Limite de 8 arquivos locais atingido."

  function OnlySome(slots: nat): string {
    "Apenas " + NatToString(slots) + " arquivo(s) pode(m) ser adicionado(s) agora."
  }

  /** The slot check as the handler makes it: with no free slot it reports
      the limit but still lets the admitted files through. */
  function CapAsWritten(selectedCount: nat, s: Screening): Screening {
    var availableSlots := MaxUploadFiles - selectedCount;
    if availableSlots <= 0 then Screening(s.valid, s.errors + [LimitReached])
    else if |s.valid| > availableSlots then Screening(s.valid[..availableSlots], s.errors + [OnlySome(availableSlots)])
    else s
  }

  /** With eight files chosen, any further admitted file makes nine or more. */
  lemma CapAsWrittenOverflows(selectedCount: nat, s: Screening)
    requires selectedCount >= MaxUploadFiles && |s.valid| > 0
    ensures selectedCount + |CapAsWritten(selectedCount, s).valid| > MaxUploadFiles
    ensures CapAsWritten(selectedCount, s).errors == s.errors + [LimitReached]
  {
  }

  /** The slot check as its message says: with no free slot nothing is added. */
  function Cap(selectedCount: nat, s: Screening): Screening {
    var availableSlots := MaxUploadFiles - selectedCount;
    if availableSlots <= 0 then Screening([], s.errors + [LimitReached])
    else if |s.valid| > availableSlots then Screening(s.valid[..availableSlots], s.errors + [OnlySome(availableSlots)])
    else s
  }

  /** The kept files are the first admitted ones, as many as there are free
      slots, and never more than eight files are chosen; the batch's messages
      come first and one more tells when files were dropped. */
  lemma CapKeepsLimit(selectedCount: nat, s: Screening)
    ensures Cap(selectedCount, s).valid <= s.valid
    ensures selectedCount <= MaxUploadFiles ==> selectedCount + |Cap(selectedCount, s).valid| <= MaxUploadFiles
    ensures selectedCount < MaxUploadFiles ==>
              |Cap(selectedCount, s).valid| == if |s.valid| <= MaxUploadFiles - selectedCount then |s.valid| else MaxUploadFiles - selectedCount
    ensures s.errors <= Cap(selectedCount, s).errors
    ensures |Cap(selectedCount, s).errors| == |s.errors| <==>
              selectedCount < MaxUploadFiles && |s.valid| <= MaxUploadFiles - selectedCount
  {
  }

  /** The corrected cap differs from the handler as written only when no slot
      is free: with a slot free both keep the same files and messages, and
      with none the code keeps the admitted files while the correction drops
      them. */
  lemma CapDiffersOnlyWhenFull(selectedCount: nat, s: Screening)
    ensures selectedCount < MaxUploadFiles ==> Cap(selectedCount, s) == CapAsWritten(selectedCount, s)
    ensures selectedCount >= MaxUploadFiles ==>
              CapAsWritten(selectedCount, s).valid == s.valid && Cap(selectedCount, s).valid == []
              && Cap(selectedCount, s).errors == CapAsWritten(selectedCount, s).errors
  {
  }

  /** What choosing `newFiles` does to the chosen `selected`, with the
      corrected cap. */
  function Admit(selected: seq<File>, newFiles: seq<File>): Screening {
    Cap(|selected|, ScreenFrom(Fingerprints(selected), newFiles))
  }

  /** The first collected message, the only one shown. */
  function FirstMessage(errors: seq<string>): (r: Option<string>)
    ensures r.Some? <==> |errors| > 0
    ensures r.Some? ==> r.value == errors[0]
  {
    if |errors| > 0 then Some(errors[0]) else None
  }

  /** The chosen files are admissible, have distinct fingerprints and are at
      most eight. */
  predicate FilesOk(files: seq<File>) {
    && (forall f :: f in files ==> Admissible(f))
    && DistinctFingerprints(files)
    && |files| <= MaxUploadFiles
  }

  /** Admitting a batch keeps the chosen files in order as a prefix and keeps
      them admissible, distinct and at most eight. */
  lemma AdmitKeepsFilesOk(selected: seq<File>, newFiles: seq<File>)
    requires FilesOk(selected)
    ensures FilesOk(selected + Admit(selected, newFiles).valid)
  {
    var seen := Fingerprints(selected);
    var s := ScreenFrom(seen, newFiles);
    ScreenAdmits(seen, newFiles);
    CapKeepsLimit(|selected|, s);
    var kept := Admit(selected, newFiles).valid;
    PrefixKept(kept, s.valid);
    AppendDistinct(selected, kept);
    forall f | f in selected + kept ensures Admissible(f) {
      if f !in selected {
        assert f in kept;
      }
    }
  }

  /** The first files of a batch with distinct fingerprints are files of
      the batch with distinct fingerprints. */
  lemma PrefixKept(kept: seq<File>, valid: seq<File>)
    requires kept <= valid && DistinctFingerprints(valid)
    ensures (forall f :: f in kept ==> f in valid) && DistinctFingerprints(kept)
  {
    forall f | f in kept ensures f in valid {
      var i :| 0 <= i < |kept| && kept[i] == f;
      assert valid[i] == f;
    }
  }

  /** Files none of whose fingerprints is already chosen keep the chosen
      ones distinct. */
  lemma AppendDistinct(selected: seq<File>, kept: seq<File>)
    requires DistinctFingerprints(selected) && DistinctFingerprints(kept)
    requires forall f :: f in kept ==> Fingerprint(f) !in Fingerprints(selected)
    ensures DistinctFingerprints(selected + kept)
  {
    var all := selected + kept;
    forall i, j | 0 <= i < j < |all| ensures Fingerprint(all[i]) != Fingerprint(all[j]) {
      if j >= |selected| {
        assert all[j] == kept[j - |selected|];
        if i >= |selected| {
          assert all[i] == kept[i - |selected|];
        } else {
          assert all[i] in selected;
          assert Fingerprint(all[i]) in Fingerprints(selected);
          assert all[j] in kept;
        }
      }
    }
  }

  /** After `k` files of the batch: what has been collected, followed by what
      the rest of the batch gives, is what the whole batch gives. */
  ghost predicate ScreenInvariant(seen0: set<string>, files: seq<File>, k: nat, seen: set<string>,
                                  validFiles: seq<File>, errors: seq<string>)
    requires k <= |files|
  {
    ScreenFrom(seen0, files)
      == Screening(validFiles + ScreenFrom(seen, files[k..]).valid, errors + ScreenFrom(seen, files[k..]).errors)
  }

  lemma ScreenStep(seen0: set<string>, files: seq<File>, k: nat, seen: set<string>,
                   validFiles: seq<File>, errors: seq<string>)
    requires k < |files| && ScreenInvariant(seen0, files, k, seen, validFiles, errors)
    ensures Refusal(seen, files[k]).Some? ==>
              ScreenInvariant(seen0, files, k + 1, seen, validFiles, errors + [Refusal(seen, files[k]).value])
    ensures Refusal(seen, files[k]).None? ==>
              ScreenInvariant(seen0, files, k + 1, seen + {Fingerprint(files[k])}, validFiles + [files[k]], errors)
  {
    var f := files[k];
    assert files[k..][0] == f && files[k..][1..] == files[k + 1..];
    ScreenUnfold(seen, files[k..]);
    var msg := Refusal(seen, f);
    var r := ScreenFrom(if msg.Some? then seen else seen + {Fingerprint(f)}, files[k + 1..]);
    if msg.Some? {
      assert errors + ([msg.value] + r.errors) == (errors + [msg.value]) + r.errors;
    } else {
      assert validFiles + ([f] + r.valid) == (validFiles + [f]) + r.valid;
    }
  }

  /** One turn of the screening. */
  lemma ScreenUnfold(seen: set<string>, files: seq<File>)
    requires files != []
    ensures Refusal(seen, files[0]).Some? ==>
              ScreenFrom(seen, files) == Screening(ScreenFrom(seen, files[1..]).valid,
                                                   [Refusal(seen, files[0]).value] + ScreenFrom(seen, files[1..]).errors)
    ensures Refusal(seen, files[0]).None? ==>
              ScreenFrom(seen, files) == Screening([files[0]] + ScreenFrom(seen + {Fingerprint(files[0])}, files[1..]).valid,
                                                   ScreenFrom(seen + {Fingerprint(files[0])}, files[1..]).errors)
  {
  }

  /** The `forEach` of the change handler over a batch, from the
      fingerprints of the files already chosen. */
  method ScreenBatch(seen0: set<string>, newFiles: seq<File>) returns (validFiles: seq<File>, errors: seq<string>)
    ensures Screening(validFiles, errors) == ScreenFrom(seen0, newFiles)
  {
    var seen := seen0;
    validFiles, errors := [], [];
    for k := 0 to |newFiles|
      invariant ScreenInvariant(seen0, newFiles, k, seen, validFiles, errors)
    {
      var file := newFiles[k];
      ScreenStep(seen0, newFiles, k, seen, validFiles, errors);
      var fingerprint := Fingerprint(file);
      if fingerprint in seen {
        errors := errors + ["\"" + file.name + "\" ja foi selecionado."];
      } else if !StartsWith(file.mime, AllowedFileTypePrefix) {
        errors := errors + ["\"" + file.name + "\" nao e uma imagem valida."];
      } else if file.size > MaxFileSizeBytes {
        errors := errors + ["\"" + file.name + "\" excede 5 MB."];
      } else {
        seen := seen + {fingerprint};
        validFiles := validFiles + [file];
      }
    }
    assert newFiles[|newFiles|..] == [];
  }

  /** Removing one element keeps the others, in order. */
  lemma RemoveAt<T>(s: seq<T>, index: nat)
    requires index < |s|
    ensures forall i :: 0 <= i < index ==> (s[..index] + s[index + 1..])[i] == s[i]
    ensures forall i :: index < i < |s| ==> (s[..index] + s[index + 1..])[i - 1] == s[i]
    ensures forall x :: x in s[..index] + s[index + 1..] ==> x in s
  {
  }

  lemma RemoveKeepsFilesOk(files: seq<File>, index: nat)
    requires FilesOk(files) && index < |files|
    ensures FilesOk(files[..index] + files[index + 1..])
  {
    RemoveAt(files, index);
  }

  /** The photos of the form. `isValidImageUrl`, which uses the browser's URL
      parser, is a parameter. The file handler uses the corrected cap `Cap`,
      under which at most eight files are ever chosen; the handler as written
      (`CapAsWritten`) appends files even when eight are already chosen. */
  class PhotoPicker {
    var fotos: seq<string>
    var selectedFiles: seq<File>
    const isValidImageUrl: string -> bool

    /** Every URL is trimmed, non-empty, valid and listed once, and the chosen
        files are admissible, distinct and at most eight. */
    ghost predicate Valid()
      reads this
    {
      && (forall i, j :: 0 <= i < j < |fotos| ==> fotos[i] != fotos[j])
      && (forall u :: u in fotos ==> u != "" && Trim(u) == u && isValidImageUrl(u))
      && FilesOk(selectedFiles)
    }

    constructor (isValidImageUrl: string -> bool)
      ensures Valid() && fotos == [] && selectedFiles == []
      ensures this.isValidImageUrl == isValidImageUrl
    {
      fotos := [];
      selectedFiles := [];
      this.isValidImageUrl := isValidImageUrl;
    }

    /** The file input's `change` handler, with the corrected cap: returns
        the message shown, if any. With a free slot this is the handler as
        written (`CapDiffersOnlyWhenFull`); with eight files chosen it adds
        nothing, where the code as written still appends the batch. */
    method ChangeFiles(newFiles: seq<File>) returns (shown: Option<string>)
      requires Valid()
      modifies this
      ensures Valid()
      ensures fotos == old(fotos)
      ensures selectedFiles == old(selectedFiles) + Admit(old(selectedFiles), newFiles).valid
      ensures newFiles == [] ==> shown.None?
      ensures newFiles != [] ==> shown == FirstMessage(Admit(old(selectedFiles), newFiles).errors)
    {
      if |newFiles| == 0 {
        assert Admit(selectedFiles, newFiles).valid == [];
        return None;
      }
      var seen := set f | f in selectedFiles :: Fingerprint(f);
      var validFiles, errors := ScreenBatch(seen, newFiles);
      var availableSlots := MaxUploadFiles - |selectedFiles|;
      if availableSlots <= 0 {
        errors := errors + [LimitReached];
        validFiles := [];
      } else if |validFiles| > availableSlots {
        errors := errors + [OnlySome(availableSlots)];
        validFiles := validFiles[..availableSlots];
      }
      assert Screening(validFiles, errors) == Admit(selectedFiles, newFiles);
      AdmitKeepsFilesOk(selectedFiles, newFiles);
      if |validFiles| > 0 {
        selectedFiles := selectedFiles + validFiles;
      }
      shown := if |errors| > 0 then Some(errors[0]) else None;
    }

    /** The "add URL" button, on the text of the URL field. */
    method AddUrl(raw: string) returns (outcome: UrlOutcome)
      requires Valid()
      modifies this
      ensures Valid()
      ensures outcome == UrlOutcomeOf(old(fotos), raw, isValidImageUrl)
      ensures fotos == if outcome.Added? then old(fotos) + [Trim(raw)] else old(fotos)
      ensures selectedFiles == old(selectedFiles)
    {
      var url := Trim(raw);
      if url == "" {
        return Ignored;
      }
      if !isValidImageUrl(url) {
        return Rejected("URL invalida. Use http:// ou https://.", "URL de foto invalida.");
      }
      if url in fotos {
        return Rejected("Esta URL ja foi adicionada.", "URL de foto duplicada.");
      }
      TrimProperties(raw);
      fotos := fotos + [url];
      return Added;
    }

    /** A URL card's remove button, for the card at `index`. */
    method RemoveUrl(index: nat)
      requires Valid() && index < |fotos|
      modifies this
      ensures Valid()
      ensures fotos == old(fotos)[..index] + old(fotos)[index + 1..]
      ensures selectedFiles == old(selectedFiles)
    {
      RemoveAt(fotos, index);
      fotos := fotos[..index] + fotos[index + 1..];
    }

    /** A file card's remove button, for the card at `index`. */
    method RemoveFile(index: nat)
      requires Valid() && index < |selectedFiles|
      modifies this
      ensures Valid()
      ensures selectedFiles == old(selectedFiles)[..index] + old(selectedFiles)[index + 1..]
      ensures fotos == old(fotos)
    {
      RemoveKeepsFilesOk(selectedFiles, index);
      selectedFiles := selectedFiles[..index] + selectedFiles[index + 1..];
    }

    /** The clear button, and a successful save. */
    method Clear()
      modifies this
      ensures fotos == [] && selectedFiles == []
      ensures Valid()
    {
      fotos := [];
      selectedFiles := [];
    }
  }

  /** What the "add URL" button does: nothing for blank text, a field message
      and a status for a refused URL, or the URL is added. */
  datatype UrlOutcome = Ignored | Rejected(fieldMessage: string, status: string) | Added

  function UrlOutcomeOf(fotos: seq<string>, raw: string, isValidImageUrl: string -> bool): UrlOutcome {
    var url := Trim(raw);
    if url == "" then Ignored
    else if !isValidImageUrl(url) then Rejected("URL invalida. Use http:// ou https://.", "URL de foto invalida.")
    else if url in fotos then Rejected("Esta URL ja foi adicionada.", "URL de foto duplicada.")
    else Added
  }

  /** A URL is added exactly when its trimmed text is non-empty, valid and
      new; blank text is ignored and every other text is refused. */
  lemma UrlOutcomeCases(fotos: seq<string>, raw: string, isValidImageUrl: string -> bool)
    ensures UrlOutcomeOf(fotos, raw, isValidImageUrl) == Added <==>
              Trim(raw) != "" && isValidImageUrl(Trim(raw)) && Trim(raw) !in fotos
    ensures UrlOutcomeOf(fotos, raw, isValidImageUrl) == Ignored <==> Trim(raw) == ""
    ensures Trim(raw) != "" && Trim(raw) in fotos && isValidImageUrl(Trim(raw)) ==>
              UrlOutcomeOf(fotos, raw, isValidImageUrl) == Rejected("Esta URL ja foi adicionada.", "URL de foto duplicada.")
  {
  }
}
