/** The structured decoder: classifies kubectl's result and hands the trimmed
    standard output to a deserializer. The deserializer (`JSON.parse` in the
    repository) is a parameter: `None` stands for text it rejects, which makes
    it throw. */
module Json {
  import opened Errorable
  import opened Kubectl
  import opened Text

  /** How `kubectl -o json` formats a list of resources. The source's type
      says `kind` is "List"; nothing checks it. */
  datatype KubernetesList<T> =
    KubernetesList(apiVersion: string, items: seq<T>, kind: string, metadata: Dictionary<string>)

  /** The shape the list type promises but the decoder does not validate. */
  predicate IsListKind<T>(l: KubernetesList<T>) {
    l.kind == "List"
  }

  /** What `parseJSON` treats as missing output: standard output that is
      absent or of length zero. Whitespace alone is not missing. */
  predicate EmptyStdout(stdout: string): (r: bool)
    ensures r ==> Trim(stdout) == []
  {
    |stdout| == 0
  }

  /** `parseJSON`: not run, then non-zero exit, then empty standard output,
      then the deserialization of the trimmed standard output. A rejected
      text is not turned into a failure: the call throws. */
  function ParseJSON<T>(output: KubectlOutput, deserialize: string -> Option<T>): (r: Completion<Errorable<T>>)
    ensures output.None? ==> r == Normal(Failed(FailedToRun, UnableToRunMessage))
    ensures output.Some? && output.value.code != 0 ==> r == Normal(Failed(KubectlError, output.value.stderr))
    ensures output.Some? && output.value.code == 0 && EmptyStdout(output.value.stdout) ==>
      r == Normal(Failed(FailedToParse, EmptyJsonMessage))
    ensures r.Throw? <==>
      && output.Some? && output.value.code == 0 && !EmptyStdout(output.value.stdout)
      && deserialize(Trim(output.value.stdout)).None?
    ensures (r.Normal? && r.value.Succeeded?) <==>
      && output.Some? && output.value.code == 0 && !EmptyStdout(output.value.stdout)
      && deserialize(Trim(output.value.stdout)).Some?
    ensures r.Normal? && r.value.Succeeded? ==> deserialize(Trim(output.value.stdout)) == Some(r.value.result)
  {
    if output.None? then Normal(Failed(FailedToRun, UnableToRunMessage))
    else if output.value.code == 0 then
      if EmptyStdout(output.value.stdout) then Normal(Failed(FailedToParse, EmptyJsonMessage))
      else
        match deserialize(Trim(output.value.stdout))
        case None => Throw
        case Some(v) => Normal(Succeeded(v))
    else Normal(Failed(KubectlError, output.value.stderr))
  }

  /** `parseJSONCollection`: the same decoder at the list type. Whatever the
      deserializer makes of the trimmed text is the result, list shape or not. */
  function ParseJSONCollection<T>(output: KubectlOutput, deserialize: string -> Option<KubernetesList<T>>)
    : (r: Completion<Errorable<KubernetesList<T>>>)
    ensures r == ParseJSON(output, deserialize)
    ensures r.Normal? && r.value.Succeeded? ==>
      && output.Some? && output.value.code == 0
      && deserialize(Trim(output.value.stdout)) == Some(r.value.result)
  {
    ParseJSON(output, deserialize)
  }

  /** Every failure the decoder returns describes its cause, and none of them
      says that the text could not be deserialized: that case throws. */
  lemma ParseJSONFailuresDescribed<T>(output: KubectlOutput, deserialize: string -> Option<T>)
    ensures var r := ParseJSON(output, deserialize);
      r.Normal? ==> DescribesFailure(output, r.value)
    ensures var r := ParseJSON(output, deserialize);
      r.Normal? && r.value.Failed? && r.value.reason == FailedToParse ==> EmptyStdout(output.value.stdout)
  {
  }

  /** A non-zero exit code is examined before standard output: neither the
      output nor the deserializer matters then. */
  lemma ExitCodeCheckedFirst<T>(code: int, stdout1: string, stdout2: string, stderr: string,
                                d1: string -> Option<T>, d2: string -> Option<T>)
    requires code != 0
    ensures ParseJSON(Some(ShellResult(code, stdout1, stderr)), d1)
         == ParseJSON(Some(ShellResult(code, stdout2, stderr)), d2)
  {
  }

  /** With a zero exit code, standard error is ignored. */
  lemma ParseJSONIgnoresStderr<T>(stdout: string, stderr1: string, stderr2: string, deserialize: string -> Option<T>)
    ensures ParseJSON(Some(ShellResult(0, stdout, stderr1)), deserialize)
         == ParseJSON(Some(ShellResult(0, stdout, stderr2)), deserialize)
  {
  }

  /** Standard output that is only whitespace passes the empty check: the
      deserializer is handed the empty string. */
  lemma WhitespaceOnlyStdout<T>(stdout: string, stderr: string, deserialize: string -> Option<T>)
    requires stdout != [] && AllWhitespace(stdout)
    ensures ParseJSON(Some(ShellResult(0, stdout, stderr)), deserialize)
         == (match deserialize("") case None => Throw case Some(v) => Normal(Succeeded(v)))
  {
    TrimShape(stdout);
  }

  /** Surrounding whitespace does not change the outcome as long as something
      is left once it is trimmed away; if nothing is left, trimming first
      would turn the deserializer's outcome into the empty-output failure. */
  lemma TrimInvariance<T>(stdout: string, stderr: string, deserialize: string -> Option<T>)
    ensures Trim(stdout) != [] ==>
      ParseJSON(Some(ShellResult(0, Trim(stdout), stderr)), deserialize)
        == ParseJSON(Some(ShellResult(0, stdout, stderr)), deserialize)
    ensures stdout != [] && Trim(stdout) == [] ==>
      && ParseJSON(Some(ShellResult(0, Trim(stdout), stderr)), deserialize)
           == Normal(Failed(FailedToParse, EmptyJsonMessage))
      && ParseJSON(Some(ShellResult(0, stdout, stderr)), deserialize)
           != Normal(Failed(FailedToParse, EmptyJsonMessage))
  {
    TrimIdempotent(stdout);
  }

  /** The deserializer is consulted on the trimmed output and nowhere else:
      two deserializers that agree there give the same outcome. */
  lemma OnlyTrimmedTextConsulted<T>(output: KubectlOutput, d1: string -> Option<T>, d2: string -> Option<T>)
    requires output.Some? ==> d1(Trim(output.value.stdout)) == d2(Trim(output.value.stdout))
    ensures ParseJSON(output, d1) == ParseJSON(output, d2)
  {
  }

  /** A list envelope the deserializer builds from non-empty output is
      returned as it is: its kind and every one of its items, however many
      (one or none in the repository's collection tests). */
  lemma CollectionReturnsItems<T>(stdout: string, stderr: string, l: KubernetesList<T>,
                                  deserialize: string -> Option<KubernetesList<T>>)
    requires stdout != []
    requires deserialize(Trim(stdout)) == Some(l)
    ensures var r := ParseJSONCollection(Some(ShellResult(0, stdout, stderr)), deserialize);
      && r.Normal? && r.value.Succeeded?
      && r.value.result.kind == l.kind
      && r.value.result.items == l.items
  {
  }

  /** A deserializer that ignores its input and always yields a list. */
  function WidgetDeserializer(kind: string): string -> Option<KubernetesList<string>> {
    _ => Some(KubernetesList("fake", ["mywidget"], kind, map[]))
  }

  /** The list shape is not validated: a "list" whose kind is "Widget" is
      returned as a success. */
  lemma ShapeNotValidated()
    ensures var r := ParseJSONCollection(Some(ShellResult(0, "{}", "")), WidgetDeserializer("Widget"));
      && r == Normal(Succeeded(KubernetesList("fake", ["mywidget"], "Widget", map[])))
      && !IsListKind(r.value.result)
  {
    assert !EmptyStdout("{}");
  }
}
