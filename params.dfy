/** `librustzcash_init_zksnark_params` of src/rustzcash.rs: decode three
    parameter paths, open three files, deserialize the Sapling spend and
    output parameters and the Sprout verifying key, prepare the three
    verifying keys, and only then publish all six results in the global
    slots. Every fallible step aborts the process on failure. */
module ZksnarkParams {

  import opened Wrappers

  /** The bytes of a NUL-terminated C string, without the terminator. */
  type CString = seq<bv8>

  type Path = string

  /** An open file. */
  datatype File = File(handle: nat)

  /** bellman's Groth16 values, opaque here: a verifying key, the proving
      parameters (which carry the verifying key of their circuit) and the
      prepared form of a verifying key. */
  datatype VerifyingKey = VerifyingKey(encoding: seq<bv8>)
  datatype Parameters = Parameters(vk: VerifyingKey, encoding: seq<bv8>)
  datatype PreparedVerifyingKey = PreparedVerifyingKey(encoding: seq<bv8>)

  /** The foreign operations the initialisation calls, each with its outcome:
      `CStr::to_str`, `File::open`, `Parameters::read`, `VerifyingKey::read`
      and `prepare_verifying_key` (which cannot fail). */
  datatype Env = Env(
    toStr: CString -> Option<Path>,
    open: Path -> Option<File>,
    readParams: File -> Option<Parameters>,
    readVk: File -> Option<VerifyingKey>,
    prepare: VerifyingKey -> PreparedVerifyingKey)

  /** The three parameter sets. */
  datatype Role = Spend | Output | Sprout

  /** Why the initialisation aborted. */
  datatype Abort = PathEncoding(role: Role) | OpenFailed(role: Role) | DeserializeFailed(role: Role)

  /** Everything a successful initialisation publishes. */
  datatype Loaded = Loaded(
    spendParams: Parameters, outputParams: Parameters, sproutPath: Path,
    spendVk: PreparedVerifyingKey, outputVk: PreparedVerifyingKey, sproutVk: PreparedVerifyingKey)

  /** The proving parameters read from the file at `path`, or `None` when
      the path does not decode, the file does not open or it does not
      deserialize. */
  function ParamsAt(env: Env, path: CString): (r: Option<Parameters>)
    ensures r.Some? <==> env.toStr(path).Some? && env.open(env.toStr(path).value).Some? &&
                         env.readParams(env.open(env.toStr(path).value).value).Some?
  {
    match env.toStr(path)
    case None => None
    case Some(p) =>
      match env.open(p)
      case None => None
      case Some(file) => env.readParams(file)
  }

  /** The verifying key read from the file at `path`, likewise. */
  function VkAt(env: Env, path: CString): (r: Option<VerifyingKey>)
    ensures r.Some? <==> env.toStr(path).Some? && env.open(env.toStr(path).value).Some? &&
                         env.readVk(env.open(env.toStr(path).value).value).Some?
  {
    match env.toStr(path)
    case None => None
    case Some(p) =>
      match env.open(p)
      case None => None
      case Some(file) => env.readVk(file)
  }

  /** The outcome of the fallible steps in the order the source takes them:
      the three path decodings, the three opens, the three reads; the first
      failure decides the abort. */
  function Load(env: Env, spendPath: CString, outputPath: CString, sproutPath: CString): (r: Result<Loaded, Abort>)
    ensures r.Success? ==> env.toStr(sproutPath) == Some(r.value.sproutPath)
    ensures r.Success? ==> r.value.spendVk == env.prepare(r.value.spendParams.vk)
    ensures r.Success? ==> r.value.outputVk == env.prepare(r.value.outputParams.vk)
    ensures r.Success? ==> ParamsAt(env, spendPath) == Some(r.value.spendParams)
    ensures r.Success? ==> ParamsAt(env, outputPath) == Some(r.value.outputParams)
    ensures r.Success? ==> VkAt(env, sproutPath).Some? && r.value.sproutVk == env.prepare(VkAt(env, sproutPath).value)
  {
    var spend := env.toStr(spendPath);
    var output := env.toStr(outputPath);
    var sprout := env.toStr(sproutPath);
    if spend.None? then Failure(PathEncoding(Spend))
    else if output.None? then Failure(PathEncoding(Output))
    else if sprout.None? then Failure(PathEncoding(Sprout))
    else
      var spendFs := env.open(spend.value);
      var outputFs := env.open(output.value);
      var sproutFs := env.open(sprout.value);
      if spendFs.None? then Failure(OpenFailed(Spend))
      else if outputFs.None? then Failure(OpenFailed(Output))
      else if sproutFs.None? then Failure(OpenFailed(Sprout))
      else
        var spendParams := env.readParams(spendFs.value);
        var outputParams := env.readParams(outputFs.value);
        var sproutVk := env.readVk(sproutFs.value);
        if spendParams.None? then Failure(DeserializeFailed(Spend))
        else if outputParams.None? then Failure(DeserializeFailed(Output))
        else if sproutVk.None? then Failure(DeserializeFailed(Sprout))
        else Success(Loaded(
          spendParams.value, outputParams.value, sprout.value,
          env.prepare(spendParams.value.vk), env.prepare(outputParams.value.vk), env.prepare(sproutVk.value)))
  }

  /** The three path decodings, three opens and three reads all succeed. */
  predicate StepsSucceed(env: Env, spendPath: CString, outputPath: CString, sproutPath: CString)
  {
    var spend := env.toStr(spendPath);
    var output := env.toStr(outputPath);
    var sprout := env.toStr(sproutPath);
    spend.Some? && output.Some? && sprout.Some? &&
    var spendFs := env.open(spend.value);
    var outputFs := env.open(output.value);
    var sproutFs := env.open(sprout.value);
    spendFs.Some? && outputFs.Some? && sproutFs.Some? &&
    env.readParams(spendFs.value).Some? && env.readParams(outputFs.value).Some? &&
    env.readVk(sproutFs.value).Some?
  }

  /** The initialisation succeeds exactly when every fallible step does. */
  lemma LoadSucceedsIff(env: Env, spendPath: CString, outputPath: CString, sproutPath: CString)
    ensures Load(env, spendPath, outputPath, sproutPath).Success? <==> StepsSucceed(env, spendPath, outputPath, sproutPath)
  {
  }

  /** A spend path that does not decode aborts first, whatever else fails. */
  lemma SpendPathFailsFirst(env: Env, spendPath: CString, outputPath: CString, sproutPath: CString)
    requires env.toStr(spendPath).None?
    ensures Load(env, spendPath, outputPath, sproutPath) == Failure(PathEncoding(Spend))
  {
  }

  /** All paths decode but the spend parameters file cannot be opened: the
      abort is the spend open, even if later files are missing too. */
  lemma SpendFileMissing(env: Env, spendPath: CString, outputPath: CString, sproutPath: CString)
    requires env.toStr(spendPath).Some? && env.toStr(outputPath).Some? && env.toStr(sproutPath).Some?
    requires env.open(env.toStr(spendPath).value).None?
    ensures Load(env, spendPath, outputPath, sproutPath) == Failure(OpenFailed(Spend))
  {
  }

  /** No file is read before all three have been opened: a missing Sprout
      file aborts the call even when the spend parameters would not
      deserialize. */
  lemma OpensBeforeReads(env: Env, spendPath: CString, outputPath: CString, sproutPath: CString)
    requires env.toStr(spendPath).Some? && env.toStr(outputPath).Some? && env.toStr(sproutPath).Some?
    requires env.open(env.toStr(spendPath).value).Some? && env.open(env.toStr(outputPath).value).Some?
    requires env.open(env.toStr(sproutPath).value).None?
    ensures Load(env, spendPath, outputPath, sproutPath) == Failure(OpenFailed(Sprout))
  {
  }

  /** The six global slots. */
  datatype Slots = Slots(
    saplingSpendParams: Option<Parameters>, saplingOutputParams: Option<Parameters>,
    sproutGroth16ParamsPath: Option<Path>, saplingSpendVk: Option<PreparedVerifyingKey>,
    saplingOutputVk: Option<PreparedVerifyingKey>, sproutGroth16Vk: Option<PreparedVerifyingKey>)

  /** The slots before any initialisation. */
  const EmptySlots := Slots(None, None, None, None, None, None)

  predicate AllSet(s: Slots)
  {
    s.saplingSpendParams.Some? && s.saplingOutputParams.Some? && s.sproutGroth16ParamsPath.Some? &&
    s.saplingSpendVk.Some? && s.saplingOutputVk.Some? && s.sproutGroth16Vk.Some?
  }

  /** The slots after an initialisation with outcome `r`, from slots `s`. */
  function AfterInit(s: Slots, r: Result<Loaded, Abort>): (t: Slots)
    ensures r.Failure? ==> t == s
    ensures r.Success? ==> AllSet(t)
  {
    match r
    case Failure(_) => s
    case Success(l) =>
      Slots(Some(l.spendParams), Some(l.outputParams), Some(l.sproutPath),
            Some(l.spendVk), Some(l.outputVk), Some(l.sproutVk))
  }

  /** From empty slots, an initialisation fills all six or none. */
  lemma InitAllOrNothing(env: Env, spendPath: CString, outputPath: CString, sproutPath: CString)
    ensures var t := AfterInit(EmptySlots, Load(env, spendPath, outputPath, sproutPath));
      (AllSet(t) && StepsSucceed(env, spendPath, outputPath, sproutPath)) ||
      (t == EmptySlots && !StepsSucceed(env, spendPath, outputPath, sproutPath))
  {
    LoadSucceedsIff(env, spendPath, outputPath, sproutPath);
  }

  /** On success the published parameters are those read from the spend
      and output files, each published verifying key is the preparation of
      its key, and the Sprout path is the decoded path. */
  lemma PublishedKeys(env: Env, s: Slots, spendPath: CString, outputPath: CString, sproutPath: CString)
    requires StepsSucceed(env, spendPath, outputPath, sproutPath)
    ensures var t := AfterInit(s, Load(env, spendPath, outputPath, sproutPath));
      t.saplingSpendParams == ParamsAt(env, spendPath) &&
      t.saplingOutputParams == ParamsAt(env, outputPath) &&
      t.sproutGroth16ParamsPath == env.toStr(sproutPath) &&
      t.saplingSpendVk == Some(env.prepare(t.saplingSpendParams.value.vk)) &&
      t.saplingOutputVk == Some(env.prepare(t.saplingOutputParams.value.vk)) &&
      t.sproutGroth16Vk == Some(env.prepare(VkAt(env, sproutPath).value))
  {
    LoadSucceedsIff(env, spendPath, outputPath, sproutPath);
  }

  /** The panic message of each abort, as the source writes it: the output
      parameters' deserialization failure reuses the spend message. */
  function AbortMessageAsWritten(e: Abort): (m: string)
    ensures e != DeserializeFailed(Output) ==> m == AbortMessage(e)
    ensures e == DeserializeFailed(Output) ==> m == AbortMessage(DeserializeFailed(Spend))
  {
    match e
    case PathEncoding(_) => "parameter path encoding error"
    case OpenFailed(Spend) => "couldn't load Sapling spend parameters file"
    case OpenFailed(Output) => "couldn't load Sapling output parameters file"
    case OpenFailed(Sprout) => "couldn't load Sprout groth16 parameters file"
    case DeserializeFailed(Spend) => "couldn't deserialize Sapling spend parameters file"
    case DeserializeFailed(Output) => "couldn't deserialize Sapling spend parameters file"
    case DeserializeFailed(Sprout) => "couldn't deserialize Sprout Groth16 verifying key"
  }

  /** As written, a corrupt output parameters file reports itself as the
      spend parameters file. */
  lemma AbortMessageAsWrittenCollides()
    ensures AbortMessageAsWritten(DeserializeFailed(Output)) == AbortMessageAsWritten(DeserializeFailed(Spend))
  {
  }

  /** The panic message of each abort, with the output parameters'
      deserialization failure naming the output file. */
  function AbortMessage(e: Abort): (m: string)
  {
    match e
    case PathEncoding(_) => "parameter path encoding error"
    case OpenFailed(Spend) => "couldn't load Sapling spend parameters file"
    case OpenFailed(Output) => "couldn't load Sapling output parameters file"
    case OpenFailed(Sprout) => "couldn't load Sprout groth16 parameters file"
    case DeserializeFailed(Spend) => "couldn't deserialize Sapling spend parameters file"
    case DeserializeFailed(Output) => "couldn't deserialize Sapling output parameters file"
    case DeserializeFailed(Sprout) => "couldn't deserialize Sprout Groth16 verifying key"
  }

  /** Every open or deserialization abort names its own step. */
  lemma AbortMessageIdentifiesStep(e1: Abort, e2: Abort)
    requires !e1.PathEncoding? && !e2.PathEncoding?
    ensures AbortMessage(e1) == AbortMessage(e2) <==> e1 == e2
  {
  }

  /** The six `static mut` slots of the library. */
  class GlobalParams {
    var saplingSpendVk: Option<PreparedVerifyingKey>
    var saplingOutputVk: Option<PreparedVerifyingKey>
    var sproutGroth16Vk: Option<PreparedVerifyingKey>
    var saplingSpendParams: Option<Parameters>
    var saplingOutputParams: Option<Parameters>
    var sproutGroth16ParamsPath: Option<Path>

    function Contents(): (s: Slots)
      reads this
    {
      Slots(saplingSpendParams, saplingOutputParams, sproutGroth16ParamsPath,
            saplingSpendVk, saplingOutputVk, sproutGroth16Vk)
    }

    /** The statics start out `None`. */
    constructor ()
      ensures Contents() == EmptySlots
    {
      saplingSpendVk, saplingOutputVk, sproutGroth16Vk := None, None, None;
      saplingSpendParams, saplingOutputParams, sproutGroth16ParamsPath := None, None, None;
    }

    /** `librustzcash_init_zksnark_params`. `panic` is the message argument
        the source passes to the `expect` that aborts the process, or `None`
        when the call returns; no slot is written before the last fallible
        step has succeeded. */
    method InitZksnarkParams(env: Env, spendPath: CString, outputPath: CString, sproutPath: CString)
      returns (panic: Option<string>)
      modifies this
      ensures Contents() == AfterInit(old(Contents()), Load(env, spendPath, outputPath, sproutPath))
      ensures panic == match Load(env, spendPath, outputPath, sproutPath)
                       case Success(_) => None
                       case Failure(e) => Some(AbortMessageAsWritten(e))
    {
      var spend := env.toStr(spendPath);
      if spend.None? { return Some(AbortMessageAsWritten(PathEncoding(Spend))); }
      var output := env.toStr(outputPath);
      if output.None? { return Some(AbortMessageAsWritten(PathEncoding(Output))); }
      var sprout := env.toStr(sproutPath);
      if sprout.None? { return Some(AbortMessageAsWritten(PathEncoding(Sprout))); }

      var spendFs := env.open(spend.value);
      if spendFs.None? { return Some(AbortMessageAsWritten(OpenFailed(Spend))); }
      var outputFs := env.open(output.value);
      if outputFs.None? { return Some(AbortMessageAsWritten(OpenFailed(Output))); }
      var sproutFs := env.open(sprout.value);
      if sproutFs.None? { return Some(AbortMessageAsWritten(OpenFailed(Sprout))); }

      var spendParams := env.readParams(spendFs.value);
      if spendParams.None? { return Some(AbortMessageAsWritten(DeserializeFailed(Spend))); }
      var outputParams := env.readParams(outputFs.value);
      if outputParams.None? { return Some(AbortMessageAsWritten(DeserializeFailed(Output))); }
      var sproutVk := env.readVk(sproutFs.value);
      if sproutVk.None? { return Some(AbortMessageAsWritten(DeserializeFailed(Sprout))); }

      var spendVk := env.prepare(spendParams.value.vk);
      var outputVk := env.prepare(outputParams.value.vk);
      var sproutPreparedVk := env.prepare(sproutVk.value);

      saplingSpendParams := Some(spendParams.value);
      saplingOutputParams := Some(outputParams.value);
      sproutGroth16ParamsPath := Some(sprout.value);
      saplingSpendVk := Some(spendVk);
      saplingOutputVk := Some(outputVk);
      sproutGroth16Vk := Some(sproutPreparedVk);
      return None;
    }
  }
}
