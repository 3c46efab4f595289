/** `suggest_checklist_with_ollama` of checksupport/suggest_checklist.py. The
    model check, the template names and the API call are inputs: whether the
    model exists, the names, and what the API call returns (`None` on any
    failure; the API helper strips the text itself). */
module CheckSupportSuggest {
  import opened PyStr
  import opened SuggestChecklist

  /** The suggestion, and whether the API was called at all. */
  method SuggestChecklistWithOllama(modelExists: bool, names: seq<string>, response: Option<string>)
    returns (suggested: Option<string>, apiCalled: bool)
    ensures !modelExists ==> suggested.None? && !apiCalled
    ensures modelExists ==> apiCalled
    ensures modelExists && response.None? ==> suggested.None?
    ensures modelExists && response.Some? ==> suggested == FirstMatch(names, response.value)
    ensures suggested.Some? ==> response.Some? && suggested.value in names && NameOccurs(suggested.value, response.value)
  {
    if !modelExists {
      return None, false;
    }
    apiCalled := true;
    if response.None? {
      return None, apiCalled;
    }
    suggested := MatchChecklistName(names, response.value);
    FirstMatchIsListed(names, response.value);
  }
}
