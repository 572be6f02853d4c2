/** The session state of the Streamlit page (ui/app.py): the five keys it
    keeps in st.session_state, their defaults, the three callbacks that
    change them, and what a form submission stores and runs.

    Widget rendering is not modelled; the values a widget would supply
    (the query text, the transaction-data text) are parameters, and so are
    json.loads and the import of use-case modules. */
module UiSession {
  import opened Wrappers
  import opened UseCaseCore

  /** The one use case whose form has a transaction-data field. */
  const FraudDetection: string := "use_case_01_fraud_detection"

  /** The keys of st.session_state the page reads and writes. */
  datatype Key = ManagerKey | CurrentUseCaseKey | ResultKey | IsRunningKey | InputDataKey

  const AllKeys: set<Key> := {ManagerKey, CurrentUseCaseKey, ResultKey, IsRunningKey, InputDataKey}

  /** `if st.session_state.current_use_case:` holds for a present, non-empty id. */
  predicate Selected(current: Option<string>) {
    current.Some? && current.value != ""
  }

  /** The input data built when the form is submitted (ui/app.py:116-124):
      always the query; for the fraud-detection use case also the parsed
      transaction data, when that field exists and parses. A parse failure
      is reported (`invalidJson`) and the query alone is kept. */
  method AssembleInput(caseId: string, query: string, transactionData: Option<string>,
                       jsonLoads: string -> Option<Json>)
    returns (input: InputData, invalidJson: bool)
    ensures "query" in input && input["query"] == JStr(query)
    ensures input.Keys <= {"query", "transactions"}
    ensures "transactions" in input <==>
      caseId == FraudDetection && transactionData.Some? && jsonLoads(transactionData.value).Some?
    ensures "transactions" in input ==> input["transactions"] == jsonLoads(transactionData.value).value
    ensures invalidJson <==>
      caseId == FraudDetection && transactionData.Some? && jsonLoads(transactionData.value).None?
  {
    input := map["query" := JStr(query)];
    invalidJson := false;
    if caseId == FraudDetection && transactionData.Some? {
      match jsonLoads(transactionData.value)
      case Some(parsed) =>
        input := input["transactions" := parsed];
      case None =>
        invalidJson := true;
    }
  }

  /** A set holding each of the five keys is the set of all keys. */
  lemma EveryKey(keys: set<Key>)
    requires ManagerKey in keys && CurrentUseCaseKey in keys && ResultKey in keys
    requires IsRunningKey in keys && InputDataKey in keys
    ensures keys == AllKeys
  {
    forall k | k in keys ensures k in AllKeys {
      match k
      case ManagerKey =>
      case CurrentUseCaseKey =>
      case ResultKey =>
      case IsRunningKey =>
      case InputDataKey =>
    }
  }

  /** st.session_state as the page uses it. `present` records which keys
      exist; a field whose key is absent holds no meaningful value. */
  class SessionState {
    var present: set<Key>
    var manager: UseCaseManager?
    var currentUseCase: Option<string>
    var result: Option<RunRecord>
    var isRunning: bool
    var inputData: InputData

    /** A stored manager is a real object. */
    ghost predicate Consistent()
      reads this
    {
      ManagerKey in present ==> manager != null
    }

    /** Every key is present, as after the initialisation block. */
    ghost predicate Valid()
      reads this
    {
      Consistent() && present == AllKeys
    }

    /** A new browser session: nothing stored yet. */
    constructor ()
      ensures Consistent() && present == {}
    {
      present := {};
      manager := null;
      currentUseCase := None;
      result := None;
      isRunning := false;
      inputData := map[];
    }

    /** The initialisation block at the top of every script run: each key
        receives its default only when it is absent, so a value stored by
        an earlier run survives. */
    method InitializeDefaults(financialDir: Option<seq<Entry>>, researchDir: Option<seq<Entry>>)
      requires Consistent()
      modifies this
      ensures Valid()
      ensures ManagerKey in old(present) ==> manager == old(manager)
      ensures ManagerKey !in old(present) ==>
        && fresh(manager)
        && manager.financialUseCases == Catalog("financial_use_cases", financialDir)
        && manager.researchUseCases == Catalog("research_use_cases", researchDir)
      ensures currentUseCase == if CurrentUseCaseKey in old(present) then old(currentUseCase) else None
      ensures result == if ResultKey in old(present) then old(result) else None
      ensures isRunning == if IsRunningKey in old(present) then old(isRunning) else false
      ensures inputData == if InputDataKey in old(present) then old(inputData) else map[]
    {
      InitializeManager(financialDir, researchDir);
      InitializeRunState();
      EveryKey(present);
    }

    /** The rest of the initialisation block: the selected use case, the
        result, the running flag and the input data, each set to its
        default only when absent. */
    method InitializeRunState()
      requires Consistent() && ManagerKey in present
      modifies this
      ensures Consistent() && manager == old(manager)
      ensures present == old(present) + {CurrentUseCaseKey, ResultKey, IsRunningKey, InputDataKey}
      ensures currentUseCase == if CurrentUseCaseKey in old(present) then old(currentUseCase) else None
      ensures result == if ResultKey in old(present) then old(result) else None
      ensures isRunning == if IsRunningKey in old(present) then old(isRunning) else false
      ensures inputData == if InputDataKey in old(present) then old(inputData) else map[]
    {
      if CurrentUseCaseKey !in present {
        currentUseCase := None;
      }
      if ResultKey !in present {
        result := None;
      }
      if IsRunningKey !in present {
        isRunning := false;
      }
      if InputDataKey !in present {
        inputData := map[];
      }
      present := present + {CurrentUseCaseKey, ResultKey, IsRunningKey, InputDataKey};
    }

    /** The first line of the initialisation block: a manager is created,
        scanning both directories, only when none is stored. */
    method InitializeManager(financialDir: Option<seq<Entry>>, researchDir: Option<seq<Entry>>)
      requires Consistent()
      modifies this
      ensures Consistent() && present == old(present) + {ManagerKey}
      ensures ManagerKey in old(present) ==> manager == old(manager)
      ensures ManagerKey !in old(present) ==>
        && fresh(manager)
        && manager.financialUseCases == Catalog("financial_use_cases", financialDir)
        && manager.researchUseCases == Catalog("research_use_cases", researchDir)
      ensures currentUseCase == old(currentUseCase) && result == old(result)
      ensures isRunning == old(isRunning) && inputData == old(inputData)
    {
      if ManagerKey !in present {
        manager := new UseCaseManager(financialDir, researchDir);
        present := present + {ManagerKey};
      }
    }

    /** reset_result: forget the last result and clear the running flag. */
    method ResetResult()
      requires Valid()
      modifies this
      ensures Valid()
      ensures result == None && !isRunning
      ensures manager == old(manager) && currentUseCase == old(currentUseCase) && inputData == old(inputData)
    {
      result := None;
      isRunning := false;
    }

    /** set_use_case: selecting the use case already selected changes
        nothing; selecting another one starts it afresh. */
    method SetUseCase(id: string)
      requires Valid()
      modifies this
      ensures Valid() && manager == old(manager)
      ensures old(currentUseCase) == Some(id) ==> unchanged(this)
      ensures old(currentUseCase) != Some(id) ==>
        currentUseCase == Some(id) && result == None && !isRunning && inputData == map[]
    {
      if currentUseCase != Some(id) {
        currentUseCase := Some(id);
        ResetResult();
        inputData := map[];
      }
    }

    /** run_use_case: with a use case selected, store the manager's record
        for it and the current input data; otherwise do nothing. */
    method RunUseCase(load: string -> Import)
      requires Valid()
      modifies this
      ensures Valid()
      ensures manager == old(manager) && currentUseCase == old(currentUseCase) && inputData == old(inputData)
      ensures !Selected(old(currentUseCase)) ==> unchanged(this)
      ensures Selected(old(currentUseCase)) ==>
        && result == Some(manager.RunUseCase(currentUseCase.value, inputData, load))
        && !isRunning
    {
      if Selected(currentUseCase) {
        isRunning := true;
        result := Some(manager.RunUseCase(currentUseCase.value, inputData, load));
        isRunning := false;
      }
    }

    /** Submitting the form of the selected use case (ui/app.py:114-130):
        the assembled input data is stored, even when the transaction data
        did not parse, and the use case is run with it. */
    method Submit(query: string, transactionData: Option<string>,
                  jsonLoads: string -> Option<Json>, load: string -> Import)
      returns (invalidJson: bool)
      requires Valid() && currentUseCase.Some?
      modifies this
      ensures Valid()
      ensures manager == old(manager) && currentUseCase == old(currentUseCase)
      ensures "query" in inputData && inputData["query"] == JStr(query)
      ensures inputData.Keys <= {"query", "transactions"}
      ensures "transactions" in inputData <==>
        currentUseCase.value == FraudDetection && transactionData.Some? && jsonLoads(transactionData.value).Some?
      ensures "transactions" in inputData ==> inputData["transactions"] == jsonLoads(transactionData.value).value
      ensures invalidJson <==>
        currentUseCase.value == FraudDetection && transactionData.Some? && jsonLoads(transactionData.value).None?
      ensures invalidJson ==> inputData == map["query" := JStr(query)]
      ensures Selected(currentUseCase) ==>
        && result == Some(manager.RunUseCase(currentUseCase.value, inputData, load))
        && !isRunning
      ensures !Selected(currentUseCase) ==> result == old(result) && isRunning == old(isRunning)
    {
      var input;
      input, invalidJson := AssembleInput(currentUseCase.value, query, transactionData, jsonLoads);
      inputData := input;
      RunUseCase(load);
    }
  }
}
