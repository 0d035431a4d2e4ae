/**
 * What the process-creation handler promises: which request gets which
 * error, in which order the checks run, and that the backend is reached
 * exactly when every check passes, with the trimmed values.
 */
module CreateProcessRouteProperties {
  import opened Wrappers
  import opened Text
  import opened PiiGuard
  import opened PiiGuardProperties
  import opened PiiGuardInvariance
  import opened CreateProcessRoute

  /** `tipo_proceso` is missing once coerced and trimmed: undefined, null,
      or any value whose text is empty or only white space. `false` and `0`
      are not: they read "false" and "0". */
  predicate TipoBlank(f: Field) {
    || IsNullish(f)
    || (f.Str? && AllSpace(f.s))
    || (f.Num? && AllSpace(f.text))
    || (f.Compound? && f.rendering.Ok? && AllSpace(f.rendering.value))
  }

  /** `actor_hash` is missing once coerced and trimmed: any falsy value, or
      any value whose text is only white space. */
  predicate ActorBlank(f: Field) {
    || IsFalsy(f)
    || (f.Str? && AllSpace(f.s))
    || (f.Num? && AllSpace(f.text))
    || (f.Compound? && f.rendering.Ok? && AllSpace(f.rendering.value))
  }

  /** `String()` of the field throws. */
  predicate Throws(f: Field) {
    f.Compound? && f.rendering.Err?
  }

  /** `tipo_proceso` passes both of its checks. */
  predicate TipoAccepted(f: Field) {
    !Throws(f) && !TipoBlank(f) && !PiiSuspected(TextUnlessNullish(f).value)
  }

  /** `actor_hash` passes its check. */
  predicate ActorAccepted(f: Field) {
    !Throws(f) && !ActorBlank(f)
  }

  const TipoRejection := Rejected(TipoRequired, None)
  const PiiRejection := Rejected(PiiDetected, Some(PiiMessage))
  const ActorRejection := Rejected(ActorRequired, None)

  // ---------------------------------------------------------------------
  // Coercion
  // ---------------------------------------------------------------------

  /** `v ?? ""` and `v || ""` give different text exactly for `false`, `0`
      and `NaN`. */
  lemma CoercionsDiffer(f: Field)
    ensures TextUnlessNullish(f) != TextUnlessFalsy(f) <==> f in {Bool(false), Num("0"), Num("NaN")}
  {
  }

  lemma TipoTextBlank(f: Field)
    requires !Throws(f)
    ensures Trim(TextUnlessNullish(f).value) == [] <==> TipoBlank(f)
  {
  }

  lemma ActorTextBlank(f: Field)
    requires !Throws(f)
    ensures Trim(TextUnlessFalsy(f).value) == [] <==> ActorBlank(f)
  {
  }

  // ---------------------------------------------------------------------
  // Each rejection, exactly when it happens
  // ---------------------------------------------------------------------

  /** The `tipo_proceso` checks by cases on the field alone. */
  lemma AdmitRefusesTipo(tipo: Field, actor: Field)
    ensures Throws(tipo) ==> Admit(tipo, actor) == Err(Caught(tipo.rendering.error))
    ensures !Throws(tipo) && TipoBlank(tipo) ==> Admit(tipo, actor) == Err(TipoRejection)
    ensures !Throws(tipo) && !TipoBlank(tipo) && PiiSuspected(TextUnlessNullish(tipo).value) ==>
      Admit(tipo, actor) == Err(PiiRejection)
  {
    if !Throws(tipo) {
      TipoTextBlank(tipo);
      if !TipoBlank(tipo) {
        TrimKeepsVerdict(TextUnlessNullish(tipo).value);
      }
    }
  }

  /** An accepted `tipo_proceso` coerces, trims to a non-empty text, and
      that text is not flagged. */
  lemma TipoPasses(tipo: Field)
    requires TipoAccepted(tipo)
    ensures TextUnlessNullish(tipo).Ok?
    ensures Trim(TextUnlessNullish(tipo).value) != []
    ensures !PiiSuspected(Trim(TextUnlessNullish(tipo).value))
  {
    TipoTextBlank(tipo);
    TrimKeepsVerdict(TextUnlessNullish(tipo).value);
  }

  /** The `actor_hash` check, once `tipo_proceso` has passed, by cases on
      the field alone. */
  lemma AdmitRefusesActor(tipo: Field, actor: Field)
    requires TipoAccepted(tipo)
    ensures Throws(actor) ==> Admit(tipo, actor) == Err(Caught(actor.rendering.error))
    ensures !Throws(actor) && ActorBlank(actor) ==> Admit(tipo, actor) == Err(ActorRejection)
    ensures ActorAccepted(actor) ==>
      Admit(tipo, actor) == Ok(RpcArgs(Trim(TextUnlessNullish(tipo).value), Trim(TextUnlessFalsy(actor).value)))
  {
    TipoPasses(tipo);
    if !Throws(actor) {
      ActorTextBlank(actor);
    }
  }

  /** `Admit` by cases on the fields alone: the outcome of the first check
      that does not pass, or the trimmed texts. */
  lemma AdmitCases(tipo: Field, actor: Field)
    ensures Throws(tipo) ==> Admit(tipo, actor) == Err(Caught(tipo.rendering.error))
    ensures !Throws(tipo) && TipoBlank(tipo) ==> Admit(tipo, actor) == Err(TipoRejection)
    ensures !Throws(tipo) && !TipoBlank(tipo) && PiiSuspected(TextUnlessNullish(tipo).value) ==>
      Admit(tipo, actor) == Err(PiiRejection)
    ensures TipoAccepted(tipo) && Throws(actor) ==> Admit(tipo, actor) == Err(Caught(actor.rendering.error))
    ensures TipoAccepted(tipo) && !Throws(actor) && ActorBlank(actor) ==> Admit(tipo, actor) == Err(ActorRejection)
    ensures TipoAccepted(tipo) && ActorAccepted(actor) ==>
      Admit(tipo, actor) == Ok(RpcArgs(Trim(TextUnlessNullish(tipo).value), Trim(TextUnlessFalsy(actor).value)))
  {
    AdmitRefusesTipo(tipo, actor);
    if TipoAccepted(tipo) {
      AdmitRefusesActor(tipo, actor);
    }
  }

  /** 400 "tipo_proceso es requerido" exactly when `tipo_proceso` is
      blank, whatever `actor_hash` and the backend are. */
  lemma TipoRequiredExactly(tipo: Field, actor: Field, rpc: RpcArgs -> RpcOutcome)
    ensures Post(Parsed(tipo, actor), rpc) == TipoRejection <==> TipoBlank(tipo)
  {
    AdmitCases(tipo, actor);
  }

  /** 400 "PII_DETECTED" exactly when `tipo_proceso` is present and its
      text, trimmed or not, is flagged, whatever `actor_hash` and the
      backend are: the PII check comes before the `actor_hash` check. */
  lemma PiiDetectedExactly(tipo: Field, actor: Field, rpc: RpcArgs -> RpcOutcome)
    ensures Post(Parsed(tipo, actor), rpc) == PiiRejection <==>
      !Throws(tipo) && !TipoBlank(tipo) && PiiSuspected(TextUnlessNullish(tipo).value)
  {
    AdmitCases(tipo, actor);
  }

  /** 400 "actor_hash requerido" exactly when `tipo_proceso` passes and
      `actor_hash` is blank. */
  lemma ActorRequiredExactly(tipo: Field, actor: Field, rpc: RpcArgs -> RpcOutcome)
    ensures Post(Parsed(tipo, actor), rpc) == ActorRejection <==> TipoAccepted(tipo) && ActorBlank(actor)
  {
    AdmitCases(tipo, actor);
  }

  /** The checks pass, and the backend is called, exactly when
      `tipo_proceso` and `actor_hash` are both accepted; it is then called
      with both values trimmed. */
  lemma AdmittedExactly(tipo: Field, actor: Field)
    ensures Admit(tipo, actor).Ok? <==> TipoAccepted(tipo) && ActorAccepted(actor)
    ensures Admit(tipo, actor).Ok? ==>
      Admit(tipo, actor).value == RpcArgs(Trim(TextUnlessNullish(tipo).value), Trim(TextUnlessFalsy(actor).value))
  {
    AdmitCases(tipo, actor);
  }

  /** A `String()` that throws ends in the `catch` block: for `tipo_proceso`
      always, for `actor_hash` only once `tipo_proceso` has passed. */
  lemma CoercionFailureCaught(tipo: Field, actor: Field, rpc: RpcArgs -> RpcOutcome)
    ensures Throws(tipo) ==> Post(Parsed(tipo, actor), rpc) == Caught(tipo.rendering.error)
    ensures TipoAccepted(tipo) && Throws(actor) ==> Post(Parsed(tipo, actor), rpc) == Caught(actor.rendering.error)
  {
    AdmitCases(tipo, actor);
  }

  // ---------------------------------------------------------------------
  // The backend call
  // ---------------------------------------------------------------------

  /** A refused or undecodable request never reaches the backend: its
      response is the same whatever the backend would do. */
  lemma RefusedIgnoresBackend(body: Body, rpc1: RpcArgs -> RpcOutcome, rpc2: RpcArgs -> RpcOutcome)
    requires body.Malformed? || Admit(body.tipoProceso, body.actorHash).Err?
    ensures Post(body, rpc1) == Post(body, rpc2)
  {
  }

  /** An admitted request gets the backend's outcome mapped to a response:
      200 with the first row (or the data itself) on data, 500 with the
      backend's message on an error, 500 from the `catch` on an exception. */
  lemma AdmittedRepliesFromBackend(tipo: Field, actor: Field, rpc: RpcArgs -> RpcOutcome)
    requires TipoAccepted(tipo) && ActorAccepted(actor)
    ensures var args := RpcArgs(Trim(TextUnlessNullish(tipo).value), Trim(TextUnlessFalsy(actor).value));
      && Post(Parsed(tipo, actor), rpc) == Reply(rpc(args))
      && (rpc(args).RpcData? ==> Post(Parsed(tipo, actor), rpc) == Response(200, true, None, None, Some(FirstOrSelf(rpc(args).data))))
      && (rpc(args).RpcError? ==> Post(Parsed(tipo, actor), rpc) == Response(500, false, rpc(args).message, None, None))
      && (rpc(args).RpcThrew? ==> Post(Parsed(tipo, actor), rpc) == Caught(rpc(args).failure))
  {
    AdmittedExactly(tipo, actor);
  }

  /** A body that is not JSON ends in the `catch` block. */
  lemma MalformedBodyCaught(e: Thrown, rpc: RpcArgs -> RpcOutcome)
    ensures Post(Malformed(e), rpc) == Caught(e)
    ensures Post(Malformed(e), rpc).status == 500
  {
  }

  // ---------------------------------------------------------------------
  // Concrete requests
  // ---------------------------------------------------------------------

  /** Two strings whose trims are non-empty, the first trim not flagged:
      the call gets both trims. */
  lemma StringsAdmitted(tipo: string, actor: string)
    requires Trim(tipo) != [] && !PiiSuspected(Trim(tipo)) && Trim(actor) != []
    ensures Admit(Str(tipo), Str(actor)) == Ok(RpcArgs(Trim(tipo), Trim(actor)))
  {
    assert !IsNullish(Str(tipo)) && TextUnlessNullish(Str(tipo)) == Ok(tipo);
    assert actor != [] && !IsFalsy(Str(actor)) && TextUnlessFalsy(Str(actor)) == Ok(actor);
  }

  lemma ReporteCounts()
    ensures Trim("Reporte") == "Reporte" && '@' !in "Reporte" && DigitCount("Reporte") == 0
  {
    TrimUnpadded("Reporte");
  }

  /** "Reporte" is its own trim and is not flagged. */
  lemma ReporteAccepted()
    ensures Trim("Reporte") == "Reporte" && !PiiSuspected("Reporte")
  {
    ReporteCounts();
    NoAtFewDigitsNotFlagged("Reporte");
  }

  /** "ana@example.com" is its own trim and is flagged. */
  lemma AddressFlagged()
    ensures Trim("ana@example.com") == "ana@example.com" && PiiSuspected("ana@example.com")
  {
    var e := "ana@example.com";
    assert EmailAt(e, 0, 3, 11, 15);
    TrimUnpadded(e);
  }

  /** `actor_hash` is never scanned for PII: an e-mail address there is
      sent to the backend as it is. */
  lemma ActorHashNotScanned()
    ensures PiiSuspected("ana@example.com")
    ensures Admit(Str("Reporte"), Str("ana@example.com")) == Ok(RpcArgs("Reporte", "ana@example.com"))
  {
    AddressFlagged();
    ReporteAccepted();
    StringsAdmitted("Reporte", "ana@example.com");
  }

  /** The same address as `tipo_proceso` is refused. */
  lemma AddressAsTipoRefused(rpc: RpcArgs -> RpcOutcome)
    ensures Post(Parsed(Str("ana@example.com"), Str("Reporte")), rpc) == PiiRejection
  {
    AddressFlagged();
    ReporteAccepted();
    PiiDetectedExactly(Str("ana@example.com"), Str("Reporte"), rpc);
  }

  lemma FalseCounts()
    ensures Trim("false") == "false" && '@' !in "false" && DigitCount("false") == 0
  {
    TrimUnpadded("false");
  }

  lemma ZeroCounts()
    ensures Trim("0") == "0" && '@' !in "0" && DigitCount("0") == 1
  {
    TrimUnpadded("0");
  }

  /** "false", "0" and "anon" are their own trims; "false" and "0" are not
      flagged. */
  lemma FalseZeroAnonClean()
    ensures Trim("false") == "false" && !PiiSuspected("false")
    ensures Trim("0") == "0" && !PiiSuspected("0")
    ensures Trim("anon") == "anon"
  {
    FalseCounts();
    ZeroCounts();
    TrimUnpadded("anon");
    NoAtFewDigitsNotFlagged("false");
    NoAtFewDigitsNotFlagged("0");
  }

  /** `false` and `0` as `tipo_proceso` are the texts "false" and "0". */
  lemma FalseAndZeroAreTipos()
    ensures Admit(Bool(false), Str("anon")) == Ok(RpcArgs("false", "anon"))
    ensures Admit(Num("0"), Str("anon")) == Ok(RpcArgs("0", "anon"))
  {
    FalseZeroAnonClean();
    AdmittedExactly(Bool(false), Str("anon"));
    AdmittedExactly(Num("0"), Str("anon"));
  }

  /** `false` and `0` as `actor_hash` are missing. */
  lemma FalseAndZeroAreNoActor()
    ensures Admit(Str("Reporte"), Bool(false)) == Err(ActorRejection)
    ensures Admit(Str("Reporte"), Num("0")) == Err(ActorRejection)
  {
    ReporteAccepted();
    TrimUnpadded("");
    assert TipoAccepted(Str("Reporte"));
    AdmitRefusesActor(Str("Reporte"), Bool(false));
    AdmitRefusesActor(Str("Reporte"), Num("0"));
  }

  lemma PaddedTipoSpaces()
    ensures LeadingSpaces("  Reporte\n") == 2 && TrailingSpaces("  Reporte\n") == 1
  {
    var t := "  Reporte\n";
    assert t[2..][1..] == t[3..];
    assert LeadingSpaces(t[3..]) == 0;
    assert t[..|t| - 1][..|t| - 2] == t[..|t| - 2];
    assert TrailingSpaces(t[..|t| - 2]) == 0;
  }

  lemma PaddedTipoTrim()
    ensures Trim("  Reporte\n") == "Reporte"
  {
    var t := "  Reporte\n";
    PaddedTipoSpaces();
    assert t[2..9] == "Reporte";
  }

  lemma PaddedActorTrim()
    ensures Trim("\tanon ") == "anon"
  {
    var a := "\tanon ";
    assert LeadingSpaces(a) == 1 && TrailingSpaces(a) == 1;
    assert a[1..5] == "anon";
  }

  /** Surrounding white space is trimmed before the checks and before the
      call. */
  lemma PaddedValuesTrimmed()
    ensures Admit(Str("  Reporte\n"), Str("\tanon ")) == Ok(RpcArgs("Reporte", "anon"))
  {
    PaddedTipoTrim();
    PaddedActorTrim();
    ReporteAccepted();
    StringsAdmitted("  Reporte\n", "\tanon ");
  }

  /** The home page posts only `tipo_proceso`, so every request it sends
      that passes the `tipo_proceso` checks is refused for its missing
      `actor_hash`. */
  lemma HomePageRequestRefused(tipo: string, rpc: RpcArgs -> RpcOutcome)
    requires !AllSpace(tipo) && !PiiSuspected(tipo)
    ensures Post(Parsed(Str(tipo), Absent), rpc) == ActorRejection
  {
    ActorRequiredExactly(Str(tipo), Absent, rpc);
  }
}
