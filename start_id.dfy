/**
 * Validation of the operator's starting identifier `XXXX-YY` (one attempt of
 * the prompt loop in `get_user_input`): four digits, a hyphen, two digits.
 */
module StartIdentifier {
  import opened Wrappers
  import opened Text

  /** The run configuration: a serial prefix and the first counter value. */
  datatype StartId = StartId(prefix: string, start: nat)

  /** Why an attempt is rejected (the message the prompt loop prints before asking again). */
  datatype StartIdError =
    | MissingHyphen   // "Please use the format XXXX-YY"
    | NotTwoParts     // unpacking the split raised ValueError
    | BadPrefix       // "Prefix must be 4 digits"
    | BadStartNumber  // "Start number must be 2 digits"

  function ParseStartId(input: string): Result<StartId, StartIdError> {
    if '-' !in input then Failure(MissingHyphen)
    else
      var parts := Split(input, '-');
      if |parts| != 2 then Failure(NotTwoParts)
      else
        var prefix, startNum := parts[0], parts[1];
        if |prefix| != 4 || !IsDigits(prefix) then Failure(BadPrefix)
        else if !IsDigits(startNum) || |startNum| != 2 then Failure(BadStartNumber)
        else Success(StartId(prefix, DigitsValue(startNum)))
  }

  /** The accepted shape: exactly four ASCII digits, a hyphen, two ASCII digits. */
  predicate WellFormed(input: string) {
    |input| == 7 && input[4] == '-' && IsDigits(input[..4]) && IsDigits(input[5..])
  }

  /**
   * An attempt is accepted exactly when it is well formed; the prefix is then
   * its first four characters and the start number the value of its last two
   * digits, so it lies in 0..99.
   */
  lemma ParseStartIdAccepts(input: string)
    ensures ParseStartId(input).Success? <==> WellFormed(input)
    ensures ParseStartId(input).Success? ==>
      ParseStartId(input).value == StartId(input[..4], DigitsValue(input[5..])) &&
      ParseStartId(input).value.start < 100
  {
    if ParseStartId(input).Success? {
      var parts := Split(input, '-');
      JoinSplit(input, '-');
      assert Join(parts, '-') == parts[0] + ['-'] + parts[1] by {
        assert parts[1..] == [parts[1]];
      }
      assert input[..4] == parts[0];
      assert input[5..] == parts[1];
      DigitsBound(parts[1]);
    }
    if WellFormed(input) {
      var parts := [input[..4], input[5..]];
      assert '-' in input by {
        assert input[4] == '-';
      }
      assert forall p :: p in parts ==> forall k :: 0 <= k < |p| ==> p[k] != '-';
      assert Join(parts, '-') == input by {
        assert parts[1..] == [input[5..]];
        assert input == input[..4] + ['-'] + input[5..];
      }
      SplitJoin(parts, '-');
    }
  }

  /** The identifier a configuration is written as. */
  function FormatStartId(id: StartId): string
    requires id.start < 100
  {
    id.prefix + "-" + TwoDigits(id.start)
  }

  /** Writing a valid configuration and validating it gives the configuration back. */
  lemma ParseFormatStartId(id: StartId)
    requires |id.prefix| == 4 && IsDigits(id.prefix) && id.start < 100
    ensures ParseStartId(FormatStartId(id)) == Success(id)
  {
    var s := FormatStartId(id);
    TwoDigitsSpec(id.start);
    assert s[..4] == id.prefix;
    assert s[5..] == TwoDigits(id.start);
    ParseStartIdAccepts(s);
  }
}
