/**
 * The ScanForm service of scan.form.service.go: the tracking numbers given are trimmed, the
 * blank ones dropped, and the rest sent joined by commas; when none is left the call fails
 * before anything is sent.
 */
module ScanFormService {
  import opened Wrappers
  import opened GoStrings
  import opened Validation
  import opened Client

  const InvalidTrackingNumbers := "无效的跟踪号"
  const Comma := ','

  /** `input` with each element passed through `trim` and the ones left empty dropped, in their order. */
  function Kept(input: seq<string>, trim: string -> string): seq<string>
  {
    if input == [] then []
    else
      var number := trim(input[|input| - 1]);
      Kept(input[..|input| - 1], trim) + if number != "" then [number] else []
  }

  /** The tracking numbers kept from `input`, in their order: each trimmed, the blank ones dropped. */
  function Normalized(input: seq<string>): seq<string>
  {
    Kept(input, TrimSpace)
  }

  /**
   * With a trimming function that is idempotent, every number kept is trimmed and not empty,
   * and there are never more than were given.
   */
  lemma {:induction false} KeptTrimmed(input: seq<string>, trim: string -> string)
    requires forall x :: trim(trim(x)) == trim(x)
    ensures |Kept(input, trim)| <= |input|
    ensures forall k :: 0 <= k < |Kept(input, trim)| ==>
      Kept(input, trim)[k] != "" && trim(Kept(input, trim)[k]) == Kept(input, trim)[k]
  {
    if input != [] {
      KeptTrimmed(input[..|input| - 1], trim);
    }
  }

  /** Every number kept is trimmed and not empty, and there are never more than were given. */
  lemma NormalizedTrimmed(input: seq<string>)
    ensures |Normalized(input)| <= |input|
    ensures forall k :: 0 <= k < |Normalized(input)| ==>
      Normalized(input)[k] != "" && TrimSpace(Normalized(input)[k]) == Normalized(input)[k]
  {
    forall x
      ensures TrimSpace(TrimSpace(x)) == TrimSpace(x)
    {
      TrimSpaceIdempotent(x);
    }
    KeptTrimmed(input, TrimSpace);
  }

  /** One more input is kept, trimmed, unless it trims to nothing. */
  lemma KeptSnoc(xs: seq<string>, x: string, trim: string -> string)
    ensures Kept(xs + [x], trim) == Kept(xs, trim) + if trim(x) != "" then [trim(x)] else []
  {
    assert (xs + [x])[..|xs|] == xs;
  }

  /** Normalizing what normalizing kept changes nothing. */
  lemma {:induction false} NormalizedIdempotent(input: seq<string>)
    ensures Normalized(Normalized(input)) == Normalized(input)
  {
    if input != [] {
      var init := input[..|input| - 1];
      var number := TrimSpace(input[|input| - 1]);
      NormalizedIdempotent(init);
      if number == "" {
        assert Normalized(input) == Normalized(init);
      } else {
        assert Normalized(input) == Normalized(init) + [number];
        TrimSpaceIdempotent(input[|input| - 1]);
        KeptSnoc(Normalized(init), number, TrimSpace);
      }
    }
  }

  /** Nothing is kept exactly when every input trims to nothing (which an empty input does). */
  lemma {:induction false} KeptEmptyIff(input: seq<string>, trim: string -> string)
    ensures Kept(input, trim) == [] <==> forall j :: 0 <= j < |input| ==> trim(input[j]) == ""
  {
    if input != [] {
      var n := |input| - 1;
      KeptEmptyIff(input[..n], trim);
      assert forall j :: 0 <= j < n ==> input[..n][j] == input[j];
    }
  }

  /**
   * What is kept is the trimmed inputs that are not blank, in the order of the inputs: the
   * `j`-th number kept comes from input `positions[j]`, the positions increase, and every
   * input that does not trim to nothing is among them.
   */
  lemma {:induction false} KeptKeepsOrder(input: seq<string>, trim: string -> string) returns (positions: seq<nat>)
    ensures |positions| == |Kept(input, trim)|
    ensures forall j :: 0 <= j < |positions| ==>
      positions[j] < |input| && Kept(input, trim)[j] == trim(input[positions[j]])
    ensures forall j, k :: 0 <= j < k < |positions| ==> positions[j] < positions[k]
    ensures forall i :: 0 <= i < |input| && trim(input[i]) != "" ==> i in positions
  {
    if input == [] {
      positions := [];
    } else {
      var n := |input| - 1;
      var init := input[..n];
      var earlier := KeptKeepsOrder(init, trim);
      var prior := Kept(init, trim);
      var number := trim(input[n]);
      assert forall i :: 0 <= i < n ==> init[i] == input[i];
      if number != "" {
        assert Kept(input, trim) == prior + [number];
        positions := earlier + [n];
        forall j | 0 <= j < |earlier|
          ensures Kept(input, trim)[j] == trim(input[positions[j]])
        {
          assert Kept(input, trim)[j] == prior[j];
        }
        forall i | 0 <= i < n && trim(input[i]) != ""
          ensures i in positions
        {
          var k :| 0 <= k < |earlier| && earlier[k] == i;
          assert positions[k] == i;
        }
        assert positions[|earlier|] == n;
      } else {
        assert Kept(input, trim) == prior;
        positions := earlier;
      }
    }
  }

  /** The request's `tracking_number` splits back into the numbers kept, when none holds a comma. */
  lemma TrackingNumberSplits(input: seq<string>)
    requires Normalized(input) != []
    requires forall i :: 0 <= i < |input| ==> Comma !in input[i]
    ensures Split(Join(Normalized(input), [Comma]), Comma) == Normalized(input)
  {
    var kept := KeptKeepsOrder(input, TrimSpace);
    forall j | 0 <= j < |Normalized(input)|
      ensures Comma !in Normalized(input)[j]
    {
      var i := kept[j];
      var cut := TrimSpace(input[i]);
      TrimSpaceCuts(input[i]);
      var a, b :| 0 <= a <= b <= |input[i]| && cut == input[i][a..b];
    }
    SplitJoin(Normalized(input), Comma);
  }

  /**
   * The case of scan.form.service_test.go, where "TN123" and "  TN456  " are sent as
   * "TN123,TN456": a number already trimmed is kept as it is, one padded with white space is
   * kept without it, and the two are joined by a comma.
   */
  lemma TwoNumbersJoined(first: string, left: string, second: string, right: string)
    requires first != [] && !IsSpace(first[0]) && !IsSpace(first[|first| - 1])
    requires second != [] && !IsSpace(second[0]) && !IsSpace(second[|second| - 1])
    requires forall k :: 0 <= k < |left| ==> IsSpace(left[k])
    requires forall k :: 0 <= k < |right| ==> IsSpace(right[k])
    ensures Normalized([first, left + second + right]) == [first, second]
    ensures Join(Normalized([first, left + second + right]), [Comma]) == first + [Comma] + second
  {
    var padded := left + second + right;
    TrimSpaceKeepsTrimmed(first);
    TrimSpacePadded(left, second, right);
    assert [first, padded][..1] == [first];
    assert [first][..0] == [];
    assert Kept([first], TrimSpace) == [first];
  }

  /** The loop of `scanFormService.Create`: each number trimmed, the non-empty ones appended. */
  method Normalize(trackingNumbers: seq<string>) returns (numbers: seq<string>)
    ensures numbers == Normalized(trackingNumbers)
  {
    numbers := [];
    var i := 0;
    while i < |trackingNumbers|
      invariant 0 <= i <= |trackingNumbers|
      invariant numbers == Normalized(trackingNumbers[..i])
    {
      var number := TrimSpace(trackingNumbers[i]);
      if number != "" {
        numbers := numbers + [number];
      }
      assert trackingNumbers[..i + 1] == trackingNumbers[..i] + [trackingNumbers[i]];
      KeptSnoc(trackingNumbers[..i], trackingNumbers[i], TrimSpace);
      i := i + 1;
    }
    assert trackingNumbers[..i] == trackingNumbers;
  }

  /**
   * `scanFormService.Create`: the numbers are normalized; when none is left the call fails
   * with "无效的跟踪号" and sends nothing; otherwise the kept numbers joined by "," are sent
   * as `tracking_number`, recheckError decides, and the decoded forms come back only when
   * there is no error.
   */
  method Create<T>(trackingNumbers: seq<string>, reply: Reply<T>)
    returns (forms: Option<T>, err: Option<Error>, trackingNumber: Option<string>)
    ensures Normalized(trackingNumbers) == [] ==> trackingNumber.None? && err == Some(Plain(InvalidTrackingNumbers))
    ensures Normalized(trackingNumbers) != [] ==>
      trackingNumber == Some(Join(Normalized(trackingNumbers), [Comma])) && err == RecheckError(reply.response)
    ensures forms.Some? <==> trackingNumber.Some? && err.None?
    ensures forms.Some? ==> forms.value == reply.result
  {
    var numbers := Normalize(trackingNumbers);
    if |numbers| == 0 {
      return None, Some(Plain(InvalidTrackingNumbers)), None;
    }
    trackingNumber := Some(Join(numbers, [Comma]));
    err := RecheckError(reply.response);
    forms := if err.None? then Some(reply.result) else None;
  }
}
