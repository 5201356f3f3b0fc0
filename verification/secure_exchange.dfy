/** `exportCollectionsSecurely` and `importCollectionsSecurely`: the
    envelope around redacted collections, the encryption gate, and the
    import path that opens, parses and rehydrates. JSON text and the
    password-based cipher are host functions passed in as parameters. */
module SecureExchange {
  import opened Wrappers
  import opened Api
  import opened SecretVault
  import opened Redaction
  import opened Rehydration
  import opened RoundTrip

  datatype ExportOptions = ExportOptions(includeSecrets: bool, password: Option<string>, secretReferences: bool)

  /** The plaintext export document. */
  datatype Envelope = Envelope(version: string, exportedAt: string, securityLevel: string, collections: seq<Collection>)

  /** What an export yields: the plaintext envelope, or the wrapper
      `{encrypted: true, data, version}` around its ciphertext. */
  datatype Artifact =
    | Plain(envelope: Envelope)
    | Sealed(data: string, version: string)

  const FormatVersion := "1.0"
  const ImportError := "Failed to import collections securely"

  /** The export's self-description, decided by `includeSecrets` alone. */
  function SecurityLevel(includeSecrets: bool): (s: string)
    ensures s == "encrypted" <==> includeSecrets
  {
    if includeSecrets then "encrypted" else "references-only"
  }

  /** `seal(envelope, password)` is `encrypt_export` applied to the
      envelope's JSON text; its failure propagates. The redaction's store
      failure propagates too. */
  function ExportSecurely(env: Env, host: Host, cs: seq<Collection>, o: ExportOptions,
                          seal: (Envelope, string) -> Result<string, string>): (r: Result<(Artifact, Env), string>)
    ensures RedactCollections(env, host, cs, ChoosePolicy(o.includeSecrets, o.secretReferences)).Failure? ==> r.Failure?
    ensures r.Success? ==> (r.value.0.Sealed? <==> o.includeSecrets && Truthy(o.password))
    ensures o.includeSecrets && Truthy(o.password) ==>
      var sealed := seal(Envelope(FormatVersion, host.iso, "encrypted", cs), o.password.value);
      (r.Success? <==> sealed.Success?) && (r.Success? ==> r.value == (Sealed(sealed.value, FormatVersion), env))
    ensures r.Success? && r.value.0.Plain? ==>
      var e := r.value.0.envelope;
      && e.version == FormatVersion && e.exportedAt == host.iso
      && (e.securityLevel == "encrypted" <==> o.includeSecrets)
      && e.collections == RedactCollections(env, host, cs, ChoosePolicy(o.includeSecrets, o.secretReferences)).value.0
    ensures !(o.includeSecrets && Truthy(o.password)) ==>
      var red := RedactCollections(env, host, cs, ChoosePolicy(o.includeSecrets, o.secretReferences));
      (r.Success? <==> red.Success?) && (r.Success? ==> r.value.1 == red.value.1)
    ensures r.Success? ==> KeychainFrame(host, env, r.value.1)
  {
    var p := ChoosePolicy(o.includeSecrets, o.secretReferences);
    var (out, e) :- RedactCollections(env, host, cs, p);
    var envelope := Envelope(FormatVersion, host.iso, SecurityLevel(o.includeSecrets), out);
    if o.includeSecrets && Truthy(o.password) then
      var data :- seal(envelope, o.password.value);
      Success((Sealed(data, FormatVersion), e))
    else
      Success((Plain(envelope), e))
  }

  /** With `includeSecrets` and no usable password the export is the
      plaintext envelope, labelled `encrypted`, holding every credential as
      it was. */
  lemma PlaintextSecretsWithoutPassword(env: Env, host: Host, cs: seq<Collection>, o: ExportOptions,
                                        seal: (Envelope, string) -> Result<string, string>)
    requires o.includeSecrets && !Truthy(o.password)
    ensures ExportSecurely(env, host, cs, o, seal) == Success((Plain(Envelope(FormatVersion, host.iso, "encrypted", cs)), env))
  {
  }

  /** Without `includeSecrets` the export is always plaintext and no
      selected credential slot or secret header in it carries a value. */
  lemma ReferencesOnlyIsClear(env: Env, host: Host, cs: seq<Collection>, o: ExportOptions,
                              seal: (Envelope, string) -> Result<string, string>)
    requires !o.includeSecrets
    requires ExportSecurely(env, host, cs, o, seal).Success?
    ensures
      var a := ExportSecurely(env, host, cs, o, seal).value.0;
      && a.Plain? && a.envelope.securityLevel == "references-only"
      && CollectionsClear(a.envelope.collections)
  {
  }

  /** A parsed import document, as far as the import reads it: the
      truthiness of `encrypted`, the `data` field, and `collections` when
      present and non-null. */
  datatype Wire = Wire(encrypted: bool, data: string, collections: Option<seq<Collection>>)

  /** Rehydration of the collections a document carries; a missing
      `collections` field counts as the empty list. */
  function Unpack(env: Env, host: Host, w: Wire): (r: (seq<Collection>, Env))
    ensures w.collections.None? ==> r == ([], env)
    ensures r.1.keychain == env.keychain && r.1.nextId == env.nextId
    ensures Coherent(env) ==> r.0 == RestoreCollections(env.keychain, w.collections.GetOr([])) && Coherent(r.1)
  {
    RehydrateCollections(env, host, w.collections.GetOr([]))
  }

  /** `parse` is `JSON.parse` followed by the reads the import makes (None
      when either throws); `open(data, password)` is `decrypt_import`. Every
      failure is reported as the one generic error. */
  function ImportSecurely(env: Env, host: Host, text: string, password: Option<string>,
                          parse: string -> Option<Wire>,
                          open: (string, string) -> Result<string, string>): (r: Result<(seq<Collection>, Env), string>)
    ensures r.Failure? ==> r.error == ImportError
    ensures parse(text).None? ==> r.Failure?
    ensures parse(text).Some? && parse(text).value.encrypted && !Truthy(password) ==> r.Failure?
    ensures parse(text).Some? && parse(text).value.encrypted && Truthy(password) ==>
      (r.Success? <==> open(parse(text).value.data, password.value).Success?
                       && parse(open(parse(text).value.data, password.value).value).Some?)
    ensures parse(text).Some? && parse(text).value.encrypted && r.Success? ==>
      r.value == Unpack(env, host, parse(open(parse(text).value.data, password.value).value).value)
    ensures parse(text).Some? && !parse(text).value.encrypted ==> r == Success(Unpack(env, host, parse(text).value))
    ensures r.Success? ==> r.value.1.keychain == env.keychain && r.value.1.nextId == env.nextId
  {
    match parse(text)
    case None => Failure(ImportError)
    case Some(raw) =>
      if !raw.encrypted then Success(Unpack(env, host, raw))
      else if !Truthy(password) then Failure(ImportError)
      else
        match open(raw.data, password.value)
        case Failure(_) => Failure(ImportError)
        case Success(plain) =>
          match parse(plain)
          case None => Failure(ImportError)
          case Some(inner) => Success(Unpack(env, host, inner))
  }

  /** The text layer reads back what was written: parsing the JSON of a
      plaintext envelope, or of the decrypted wrapper, yields its
      collections. */
  ghost predicate TextFaithful(parse: string -> Option<Wire>, write: Envelope -> string) {
    forall e: Envelope {:trigger write(e)} :: parse(write(e)) == Some(Wire(false, "", Some(e.collections)))
  }

  /** References-only export followed by import on a machine that still
      holds the stored values: the original collections come back. */
  lemma ReferencesExportImport(env: Env, host: Host, cs: seq<Collection>, o: ExportOptions,
                               seal: (Envelope, string) -> Result<string, string>,
                               later: Env, importHost: Host, password: Option<string>,
                               parse: string -> Option<Wire>, write: Envelope -> string,
                               open: (string, string) -> Result<string, string>)
    requires FreshIds(host) && CollectionsRefFree(cs)
    requires !o.includeSecrets && o.secretReferences
    requires ExportSecurely(env, host, cs, o, seal).Success?
    requires TextFaithful(parse, write)
    requires Coherent(later)
    requires AgreesFrom(later.keychain, host, env.nextId, ExportSecurely(env, host, cs, o, seal).value.1)
    ensures
      var a := ExportSecurely(env, host, cs, o, seal).value.0;
      a.Plain? && ImportSecurely(later, importHost, write(a.envelope), password, parse, open).Success?
      && ImportSecurely(later, importHost, write(a.envelope), password, parse, open).value.0 == cs
  {
    var (out, after) := RedactCollections(env, host, cs, Reference).value;
    var a := ExportSecurely(env, host, cs, o, seal).value.0;
    assert parse(write(a.envelope)) == Some(Wire(false, "", Some(out)));
    CollectionsRoundTrip(env, host, cs, later.keychain, out, after);
  }

  /** Encrypted export followed by import with the same password, through
      a cipher whose opening undoes its sealing: the collections come back
      verbatim, credentials included. */
  lemma SealedExportImport(env: Env, host: Host, cs: seq<Collection>, o: ExportOptions,
                           seal: (Envelope, string) -> Result<string, string>,
                           later: Env, importHost: Host,
                           parse: string -> Option<Wire>, write: Envelope -> string,
                           open: (string, string) -> Result<string, string>,
                           wrapper: string)
    requires CollectionsRefFree(cs)
    requires Coherent(later)
    requires o.includeSecrets && Truthy(o.password)
    requires ExportSecurely(env, host, cs, o, seal).Success?
    requires TextFaithful(parse, write)
    requires forall e: Envelope, pw: string {:trigger seal(e, pw)} :: seal(e, pw).Success? ==> open(seal(e, pw).value, pw) == Success(write(e))
    requires parse(wrapper) == Some(Wire(true, ExportSecurely(env, host, cs, o, seal).value.0.data, None))
    ensures ImportSecurely(later, importHost, wrapper, o.password, parse, open).Success?
    ensures ImportSecurely(later, importHost, wrapper, o.password, parse, open).value.0 == cs
  {
    var e := Envelope(FormatVersion, host.iso, "encrypted", cs);
    assert open(seal(e, o.password.value).value, o.password.value) == Success(write(e));
    assert parse(write(e)) == Some(Wire(false, "", Some(cs)));
    RestoreRefFree(later.keychain, cs);
  }
}
