/** The driver (`main` in `assignment0/cli.py`): check the source, look the
    record up, display it, and unless told not to, summarise it. The two
    stages are given as functions, so the model says which stage is called,
    with what, and what exit status results. Argument parsing and the printed
    text are not modelled; whether printing the record raises is. */
module Cli {
  import opened Outcomes
  import opened Json
  import Api
  import Http
  import Llm

  const SupportedSource := "pokeapi"

  /** The summariser is always called with this timeout, whatever `--timeout` says. */
  const SummaryTimeout := 60

  /** The parsed command line. */
  datatype Args = Args(source: string, pokemon: string, noLlm: bool, timeout: int)

  datatype StageCall =
    | LookupCall(ident: string, timeout: int)
    | SummaryCall(data: Api.Pokemon, timeout: int)

  /** `main` either returns an exit status or lets an exception escape. */
  datatype Exit = Returned(code: int) | Raised

  datatype MainRun = MainRun(exit: Exit, calls: seq<StageCall>)

  /** Formatting the record for display raises: `", ".join(...)` accepts
      only strings, and `types` / `abilities` may hold other JSON values. */
  predicate DisplayRaises(data: Api.Pokemon) {
    || (exists k :: 0 <= k < |data.types| && !data.types[k].JStr?)
    || (exists k :: 0 <= k < |data.abilities| && !data.abilities[k].JStr?)
  }

  /** The lookup succeeded and its record could be displayed. */
  predicate Displayed(args: Args, lookup: (string, int) -> Outcome<Api.Pokemon>) {
    && args.source == SupportedSource
    && lookup(args.pokemon, args.timeout).Ok?
    && !DisplayRaises(lookup(args.pokemon, args.timeout).value)
  }

  /** `main`. */
  function Main(args: Args, lookup: (string, int) -> Outcome<Api.Pokemon>,
                summarize: (Api.Pokemon, int) -> Outcome<string>): (run: MainRun)
    ensures run.exit.Returned? ==> run.exit.code == 0 || run.exit.code == 1
    ensures args.source != SupportedSource ==> run == MainRun(Returned(1), [])
    ensures args.source == SupportedSource ==>
      1 <= |run.calls| <= 2 && run.calls[0] == LookupCall(args.pokemon, args.timeout)
    ensures |run.calls| == 2 <==> Displayed(args, lookup) && !args.noLlm
    ensures |run.calls| == 2 ==>
      run.calls[1] == SummaryCall(lookup(args.pokemon, args.timeout).value, SummaryTimeout)
    ensures run.exit == Returned(0) <==>
      Displayed(args, lookup)
      && (args.noLlm || summarize(lookup(args.pokemon, args.timeout).value, SummaryTimeout).Ok?)
    ensures run.exit == Returned(1) <==>
      || args.source != SupportedSource
      || lookup(args.pokemon, args.timeout).Fail?
      || (Displayed(args, lookup) && !args.noLlm
          && summarize(lookup(args.pokemon, args.timeout).value, SummaryTimeout).Fail?)
  {
    if args.source != SupportedSource then MainRun(Returned(1), [])
    else
      var looked := [LookupCall(args.pokemon, args.timeout)];
      match lookup(args.pokemon, args.timeout)
      case Fail(_) => MainRun(Returned(1), looked)
      case Crash => MainRun(Raised, looked)
      case Ok(data) =>
        if DisplayRaises(data) then MainRun(Raised, looked)
        else if args.noLlm then MainRun(Returned(0), looked)
        else
          var calls := looked + [SummaryCall(data, SummaryTimeout)];
          match summarize(data, SummaryTimeout)
          case Ok(_) => MainRun(Returned(0), calls)
          case Fail(_) => MainRun(Returned(1), calls)
          case Crash => MainRun(Raised, calls)
  }

  /** The real stages: the lookup is `get_pokemon_data` over a GET
      transport, the summariser `summarize_with_navigator` over an
      environment and a POST transport. */
  function RealLookup(get: Api.GetRequest -> Http.Transport): (string, int) -> Outcome<Api.Pokemon> {
    (ident, timeout) => Api.GetPokemonData(ident, timeout, get).result
  }

  function RealSummarize(env: map<string, string>, post: Llm.ChatRequest -> Http.Transport,
                         pyStr: Value -> string): (Api.Pokemon, int) -> Outcome<string> {
    (data, timeout) => Llm.Summarize(data, timeout, env, post, pyStr).result
  }

  /** With the real lookup, a GET that fails in an anticipated way ends the
      run with status 1 before the summariser is called; any other exception
      of the request library escapes `main`. */
  lemma LookupFailureStops(args: Args, get: Api.GetRequest -> Http.Transport,
                           summarize: (Api.Pokemon, int) -> Outcome<string>)
    requires args.source == SupportedSource
    ensures var reply := get(Api.GetRequest(Api.LookupUrl(args.pokemon), args.timeout));
      !reply.Decoded? && !reply.Raised? ==>
        Main(args, RealLookup(get), summarize)
          == MainRun(Returned(1), [LookupCall(args.pokemon, args.timeout)])
    ensures var reply := get(Api.GetRequest(Api.LookupUrl(args.pokemon), args.timeout));
      reply.Raised? ==>
        Main(args, RealLookup(get), summarize)
          == MainRun(Raised, [LookupCall(args.pokemon, args.timeout)])
  {
    var lookup := RealLookup(get);
    var t := Api.GetPokemonData(args.pokemon, args.timeout, get);
    assert lookup(args.pokemon, args.timeout) == t.result;
  }

  /** With the real summariser and no usable credential (absent, empty or
      all whitespace), whatever the lookup does: a run that gets as far as
      the summariser calls it once and ends with status 1, and the
      summariser sends no request. */
  lemma MissingKeyFailsAfterLookup(args: Args, lookup: (string, int) -> Outcome<Api.Pokemon>,
                                   env: map<string, string>, post: Llm.ChatRequest -> Http.Transport,
                                   pyStr: Value -> string)
    requires Llm.ApiKey(env).Fail?
    ensures Displayed(args, lookup) && !args.noLlm ==>
      Main(args, lookup, RealSummarize(env, post, pyStr))
        == MainRun(Returned(1), [LookupCall(args.pokemon, args.timeout),
                                 SummaryCall(lookup(args.pokemon, args.timeout).value, SummaryTimeout)])
    ensures forall data :: Llm.Summarize(data, SummaryTimeout, env, post, pyStr).sent == []
  {
  }
}
