/**
 * The base of validation rules that carry their own failure message: a rule
 * fails with an optional message and reports that message, or its default
 * one when none was given.
 */
module Rules {
  import opened Wrappers

  class RuleWithError {
    /** The message set by the last failure, if any. */
    var message: Option<string>
    /** The message reported when no other message was set (defaultMessage()). */
    const defaultMessage: string

    constructor(defaultMessage: string)
      ensures this.defaultMessage == defaultMessage && message == None
    {
      this.defaultMessage := defaultMessage;
      message := None;
    }

    /** fail(): record the message and tell the validator the rule did not pass. */
    method Fail(m: Option<string>) returns (passes: bool)
      modifies this
      ensures !passes && message == m
    {
      message := m;
      passes := false;
    }

    /** message(): the recorded message, falling back to the default. */
    function Message(): (s: string)
      reads this
      ensures message.Some? ==> s == message.value
      ensures message.None? ==> s == defaultMessage
    {
      message.GetOr(defaultMessage)
    }
  }

  /**
   * A fresh rule that fails with `m` reports `m`, or its default message when
   * `m` is absent; a rule that never failed reports its default.
   */
  method FailThenMessage(defaultMessage: string, m: Option<string>, fails: bool) returns (s: string)
    ensures fails && m.Some? ==> s == m.value
    ensures !(fails && m.Some?) ==> s == defaultMessage
  {
    var rule := new RuleWithError(defaultMessage);
    if fails {
      var passes := rule.Fail(m);
    }
    s := rule.Message();
  }
}
