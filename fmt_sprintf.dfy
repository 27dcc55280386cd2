/**
 The part of Go's `fmt.Sprintf` that the webhook's message templates use:
 every `%s` verb is replaced, left to right, by the next string argument,
 inserted as is (no quoting, no escaping); every other character of the
 template is copied unchanged. A `%s` with no argument left renders as Go's
 `%!s(MISSING)` marker.
 */
module Fmt {
  import Text

  /** Go's rendering of a `%s` verb for which no argument is left. */
  const MissingArgument: string := "%!s(MISSING)"

  /** Number of `%s` verbs in a template. */
  function Verbs(template: string): nat
    decreases |template|
  {
    if template == [] then 0
    else if |template| >= 2 && template[0] == '%' && template[1] == 's' then 1 + Verbs(template[2..])
    else Verbs(template[1..])
  }

  /** `fmt.Sprintf(template, args...)` for string arguments and `%s` verbs.
      A template without verbs renders as itself, whatever the arguments,
      and a verb never shortens the output by more than its own two
      characters. */
  function Sprintf(template: string, args: seq<string>): (r: string)
    ensures Verbs(template) == 0 ==> r == template
    ensures |r| >= |template| - 2 * Verbs(template)
    decreases |template|
  {
    if template == [] then []
    else if |template| >= 2 && template[0] == '%' && template[1] == 's' then
      (if args == [] then MissingArgument else args[0])
      + Sprintf(template[2..], if args == [] then [] else args[1..])
    else
      assert template == [template[0]] + template[1..];
      [template[0]] + Sprintf(template[1..], args)
  }

  /** A template piece that does not end in the middle of a verb: cutting a
      template after it never splits a `%s`. */
  predicate EndsCleanly(template: string) {
    template == [] || template[|template| - 1] != '%'
  }

  /** The arguments left over after `n` verbs have consumed theirs. */
  function Remaining(args: seq<string>, n: nat): seq<string> {
    if n <= |args| then args[n..] else []
  }

  /** Consuming one argument and then `n` more leaves what consuming `n + 1`
      leaves. */
  lemma RemainingAfterOne(args: seq<string>, n: nat)
    ensures Remaining(if args == [] then [] else args[1..], n) == Remaining(args, n + 1)
  {
    if args != [] && n + 1 <= |args| {
      assert args[1..][n..] == args[n + 1..];
    }
  }

  /** Text without `%` is copied to the output verbatim and consumes no
      argument. */
  lemma {:induction false} SprintfLiteral(text: string, args: seq<string>)
    requires '%' !in text
    ensures Verbs(text) == 0
    ensures Sprintf(text, args) == text
    decreases |text|
  {
    if text != [] {
      SprintfLiteral(text[1..], args);
      assert text == [text[0]] + text[1..];
    }
  }

  /** A lone `%s` renders as the first argument, or as the MISSING marker
      when there is none. */
  lemma SprintfVerb(args: seq<string>)
    ensures Verbs("%s") == 1
    ensures Sprintf("%s", args) == if args == [] then MissingArgument else args[0]
  {
    assert "%s"[2..] == [];
  }

  /** Verbs are counted piece by piece across a template cut between verbs. */
  lemma {:induction false} VerbsConcat(first: string, second: string)
    requires EndsCleanly(first)
    ensures Verbs(first + second) == Verbs(first) + Verbs(second)
    decreases |first|
  {
    var t := first + second;
    if first == [] {
      assert t == second;
    } else if |first| >= 2 && first[0] == '%' && first[1] == 's' {
      assert t[0] == '%' && t[1] == 's' && t[2..] == first[2..] + second;
      VerbsConcat(first[2..], second);
    } else {
      assert t[0] == first[0] && t[1..] == first[1..] + second;
      VerbsConcat(first[1..], second);
    }
  }

  /** Rendering distributes over a template cut between verbs: the first
      piece uses the first arguments, the second piece the ones left over. */
  lemma {:induction false} SprintfConcat(first: string, second: string, args: seq<string>)
    requires EndsCleanly(first)
    ensures Sprintf(first + second, args)
         == Sprintf(first, args) + Sprintf(second, Remaining(args, Verbs(first)))
    decreases |first|
  {
    var t := first + second;
    if first == [] {
      assert t == second;
    } else if |first| >= 2 && first[0] == '%' && first[1] == 's' {
      var arg := if args == [] then MissingArgument else args[0];
      var rest := if args == [] then [] else args[1..];
      assert t[0] == '%' && t[1] == 's' && t[2..] == first[2..] + second;
      assert Sprintf(t, args) == arg + Sprintf(first[2..] + second, rest);
      assert Sprintf(first, args) == arg + Sprintf(first[2..], rest);
      SprintfConcat(first[2..], second, rest);
      RemainingAfterOne(args, Verbs(first[2..]));
      Text.AppendAssociative(arg, Sprintf(first[2..], rest), Sprintf(second, Remaining(args, Verbs(first))));
    } else {
      assert t[0] == first[0] && t[1..] == first[1..] + second;
      assert Sprintf(t, args) == [first[0]] + Sprintf(first[1..] + second, args);
      assert Sprintf(first, args) == [first[0]] + Sprintf(first[1..], args);
      SprintfConcat(first[1..], second, args);
      Text.AppendAssociative([first[0]], Sprintf(first[1..], args), Sprintf(second, Remaining(args, Verbs(first))));
    }
  }

  /** Appending `%`-free text to a cleanly ending template appends it to the
      output and consumes no argument. */
  lemma AppendLiteral(template: string, text: string, args: seq<string>)
    requires EndsCleanly(template) && '%' !in text
    ensures EndsCleanly(template + text)
    ensures Verbs(template + text) == Verbs(template)
    ensures Sprintf(template + text, args) == Sprintf(template, args) + text
  {
    VerbsConcat(template, text);
    SprintfConcat(template, text, args);
    SprintfLiteral(text, Remaining(args, Verbs(template)));
  }

  /** Appending a `%s` verb to a cleanly ending template appends the next
      unused argument to the output. */
  lemma AppendVerb(template: string, args: seq<string>)
    requires EndsCleanly(template) && Verbs(template) < |args|
    ensures EndsCleanly(template + "%s")
    ensures Verbs(template + "%s") == Verbs(template) + 1
    ensures Sprintf(template + "%s", args) == Sprintf(template, args) + args[Verbs(template)]
  {
    VerbsConcat(template, "%s");
    SprintfConcat(template, "%s", args);
    SprintfVerb(Remaining(args, Verbs(template)));
  }

  /** A template `head %s tail` with `%`-free head and tail, given one
      argument, yields `head + arg + tail`. */
  lemma SprintfOneVerb(head: string, tail: string, arg: string)
    requires '%' !in head && '%' !in tail
    ensures Verbs(head + "%s" + tail) == 1
    ensures Sprintf(head + "%s" + tail, [arg]) == head + arg + tail
  {
    SprintfLiteral(head, [arg]);
    AppendVerb(head, [arg]);
    AppendLiteral(head + "%s", tail, [arg]);
  }

  /** A template `head %s mid1 %s mid2 %s tail` with `%`-free literal text,
      given three arguments, yields them in order between the literal text. */
  lemma SprintfThreeVerbs(head: string, mid1: string, mid2: string, tail: string,
                          a: string, b: string, c: string)
    requires '%' !in head && '%' !in mid1 && '%' !in mid2 && '%' !in tail
    ensures Verbs(head + "%s" + mid1 + "%s" + mid2 + "%s" + tail) == 3
    ensures Sprintf(head + "%s" + mid1 + "%s" + mid2 + "%s" + tail, [a, b, c])
         == head + a + mid1 + b + mid2 + c + tail
  {
    var args := [a, b, c];
    SprintfLiteral(head, args);
    AppendVerb(head, args);
    AppendLiteral(head + "%s", mid1, args);
    AppendVerb(head + "%s" + mid1, args);
    AppendLiteral(head + "%s" + mid1 + "%s", mid2, args);
    AppendVerb(head + "%s" + mid1 + "%s" + mid2, args);
    AppendLiteral(head + "%s" + mid1 + "%s" + mid2 + "%s", tail, args);
  }
}
