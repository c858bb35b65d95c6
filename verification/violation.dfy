/**
 `Violation`: the messages the style checker attaches to one line of one
 file of a build. Messages accumulate in order and are never deduplicated;
 where the line sits in the diff is read from the stored line itself.
 */
module Violations {

  /** The diff line a violation is on (its serialized `line`), as far as a violation consults it. */
  datatype Line = Line(content: string, changed: bool, patchPosition: int)

  /**
   A `violations` row. Every column is NOT NULL; `line` defaults to the
   empty string and `messages` to the empty array, the others have no default.
   */
  datatype Violation = Violation(buildId: int, filename: string, line: Line, lineNumber: int, messages: seq<string>)

  /** A fresh row: the required columns as given, and `messages` at its default, the empty array. */
  function NewViolation(buildId: int, filename: string, line: Line, lineNumber: int): (v: Violation)
    ensures v.messages == []
    ensures v.buildId == buildId && v.filename == filename && v.line == line && v.lineNumber == lineNumber
  {
    Violation(buildId, filename, line, lineNumber, [])
  }

  /**
   `add_messages`: the old messages followed by the new ones, in their
   order, duplicates included; every other column is left alone.
   */
  function AddMessages(v: Violation, newMessages: seq<string>): (r: Violation)
    ensures |r.messages| == |v.messages| + |newMessages|
    ensures r.messages[..|v.messages|] == v.messages
    ensures forall i | 0 <= i < |newMessages| :: r.messages[|v.messages| + i] == newMessages[i]
    ensures r.buildId == v.buildId && r.filename == v.filename
    ensures r.line == v.line && r.lineNumber == v.lineNumber
  {
    v.(messages := v.messages + newMessages)
  }

  /** `on_changed_line?`: asks the stored line. */
  function OnChangedLine(v: Violation): bool {
    v.line.changed
  }

  /** `patch_position`: asks the stored line. */
  function PatchPosition(v: Violation): int {
    v.line.patchPosition
  }

  /** Appending the messages one at a time, front to back. */
  function AppendEach(v: Violation, newMessages: seq<string>): Violation
    decreases |newMessages|
  {
    if newMessages == [] then v
    else AppendEach(v.(messages := v.messages + [newMessages[0]]), newMessages[1..])
  }

  /** `concat` is the same as appending each new message in turn: nothing is merged or dropped. */
  lemma {:induction false} AddMessagesAppendsEach(v: Violation, newMessages: seq<string>)
    ensures AddMessages(v, newMessages) == AppendEach(v, newMessages)
    decreases |newMessages|
  {
    if newMessages != [] {
      var next := v.(messages := v.messages + [newMessages[0]]);
      AddMessagesAppendsEach(next, newMessages[1..]);
      assert next.messages + newMessages[1..] == v.messages + newMessages by {
        assert newMessages == [newMessages[0]] + newMessages[1..];
      }
    }
  }

  /** Every occurrence survives: each message is counted once per time it was held or added. */
  lemma AddMessagesKeepsDuplicates(v: Violation, newMessages: seq<string>)
    ensures multiset(AddMessages(v, newMessages).messages) == multiset(v.messages) + multiset(newMessages)
  {
  }

  /** Adding the same message twice stores it twice. */
  lemma RepeatedMessageIsStoredTwice(v: Violation, m: string)
    ensures AddMessages(AddMessages(v, [m]), [m]).messages == v.messages + [m, m]
  {
  }

  /** Adding no messages changes nothing. */
  lemma AddNoMessages(v: Violation)
    ensures AddMessages(v, []) == v
  {
  }

  /** Two calls accumulate like one call with both lists, in order. */
  lemma AddMessagesTwice(v: Violation, first: seq<string>, second: seq<string>)
    ensures AddMessages(AddMessages(v, first), second) == AddMessages(v, first + second)
  {
  }

  /** The delegations read only the stored line, so adding messages cannot change their answers. */
  lemma DelegationsIgnoreMessages(v: Violation, newMessages: seq<string>)
    ensures OnChangedLine(AddMessages(v, newMessages)) == OnChangedLine(v) == v.line.changed
    ensures PatchPosition(AddMessages(v, newMessages)) == PatchPosition(v) == v.line.patchPosition
  {
  }
}
