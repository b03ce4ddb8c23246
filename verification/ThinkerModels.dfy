/** `thinker/models.py`: job records and the actions offered on them. Timestamps are not modelled. */
module ThinkerModels {
  import opened Wrappers

  type JobId = string

  datatype Status = Created | Running | Succeeded | Failed | Materialized | Skipped

  datatype Action = Retry | Skip

  datatype UploadedFile = UploadedFile(name: string, text: string)

  /** What a job is created with; the market event is kept as its serialized text. */
  datatype Inputs = Inputs(mode: string, researchDirection: string, seedText: string,
                           uploadedFiles: seq<UploadedFile>, polymarketEvent: Option<string>)

  datatype ThinkerResult = ThinkerResult(expandedTopics: seq<string>, enrichedSeedText: string,
                                         suggestedSimulationPrompt: string)

  /** What the user adopted instead of parts of the result. */
  datatype AdoptedInput = AdoptedInput(expandedTopics: Option<seq<string>>, enrichedSeedText: Option<string>,
                                       suggestedSimulationPrompt: Option<string>)

  datatype MaterializedPayload = MaterializedPayload(finalTopics: seq<string>, finalSeedText: string,
                                                     finalSimulationRequirement: string)

  /** `ThinkerMaterializer.materialize`: what was adopted, and the stored result for the rest. */
  function Materialize(stored: ThinkerResult, adopted: AdoptedInput): MaterializedPayload {
    MaterializedPayload(OrElse(adopted.expandedTopics, stored.expandedTopics),
                        OrElse(adopted.enrichedSeedText, stored.enrichedSeedText),
                        OrElse(adopted.suggestedSimulationPrompt, stored.suggestedSimulationPrompt))
  }

  /** A snapshot of a job, as the deep copies the store hands out. */
  datatype Job = Job(jobId: JobId, inputs: Inputs, status: Status, result: Option<ThinkerResult>,
                     errorCode: Option<string>, errorMessage: Option<string>, retryable: Option<bool>,
                     canContinue: bool)

  /** What was adopted is taken as it is, and everything else comes from the stored result. */
  lemma MaterializeFields(stored: ThinkerResult, adopted: AdoptedInput)
    ensures var p := Materialize(stored, adopted);
      && (adopted.expandedTopics.Some? ==> Some(p.finalTopics) == adopted.expandedTopics)
      && (adopted.enrichedSeedText.Some? ==> Some(p.finalSeedText) == adopted.enrichedSeedText)
      && (adopted.suggestedSimulationPrompt.Some? ==>
            Some(p.finalSimulationRequirement) == adopted.suggestedSimulationPrompt)
      && (adopted.expandedTopics.None? ==> p.finalTopics == stored.expandedTopics)
      && (adopted.enrichedSeedText.None? ==> p.finalSeedText == stored.enrichedSeedText)
      && (adopted.suggestedSimulationPrompt.None? ==>
            p.finalSimulationRequirement == stored.suggestedSimulationPrompt)
  {
  }

  function NewJob(id: JobId, inputs: Inputs): Job {
    Job(id, inputs, Created, None, None, None, None, true)
  }

  function AvailableActions(status: Status, retryable: Option<bool>, canContinue: bool): seq<Action> {
    if status.Failed? then [Retry, Skip]
    else if status.Succeeded? then [Skip]
    else []
  }
}
