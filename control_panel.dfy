/** The control panel: the topic text it owns and when it lets the user edit and
    submit it. */
module ControlPanel {
  import opened Text

  /** `disabled` of the submit button. */
  predicate SubmitDisabled(isLoading: bool, topic: string) {
    isLoading || IsBlank(topic)
  }

  /** `disabled` of the topic text area. */
  predicate TopicDisabled(isLoading: bool) {
    isLoading
  }

  /** Submission is possible exactly when nothing is loading and the topic holds
      a character that is not white space. */
  lemma SubmitEnabledIff(isLoading: bool, topic: string)
    ensures !SubmitDisabled(isLoading, topic) <==>
              !isLoading && exists i :: 0 <= i < |topic| && !IsSpace(topic[i])
  {
    BlankIffAllSpace(topic);
  }

  /** The field starts empty, so the button starts disabled. */
  lemma EmptyTopicDisablesSubmit(isLoading: bool)
    ensures SubmitDisabled(isLoading, "")
  {
  }

  class Panel {
    var topic: string

    constructor()
      ensures topic == ""
    {
      topic := "";
    }

    /** `onChange`: a disabled text area fires no change, so while loading the topic
        keeps its value. */
    method OnChange(value: string, isLoading: bool)
      modifies this
      ensures topic == if TopicDisabled(isLoading) then old(topic) else value
    {
      if !TopicDisabled(isLoading) {
        topic := value;
      }
    }

    /** `handleSubmit`: one call of `onGenerate`, with the topic as typed; trimming
        is used only to decide whether the button is enabled. */
    method HandleSubmit() returns (submitted: string)
      ensures submitted == topic
    {
      submitted := topic;
    }
  }
}
