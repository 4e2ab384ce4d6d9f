/**
 The public-read bucket policy document (bucket/__init__.py:7-16, 51).

 The source serialises one fixed policy object once, with a literal `!`
 standing where the bucket name goes, and builds each request's document
 by `str.replace('!', bucket)`. Here the serialised template is a string
 constant and the replacement is the recursive function `ReplaceAll`.
 */
module PolicyTemplate {

  /** The placeholder character the template carries in its Resource value. */
  const Placeholder: char := '!'

  // The members of the policy object, each with the separator the
  // serialiser writes after it (default separators ", " and ": ", keys in
  // the order they were written).
  const VersionMember: string := "{\"Version\": \"2012-10-17\", "
  const StatementOpen: string := "\"Statement\": [{"
  const ActionMember: string := "\"Action\": [\"s3:GetObject\"], "
  const EffectMember: string := "\"Effect\": \"Allow\", "
  const PrincipalMember: string := "\"Principal\": \"*\", "
  const ResourceKey: string := "\"Resource\": \""
  const SidMember: string := "\"Sid\": \"Public\"}]}"

  /** The template up to the opening quote of the Resource value. */
  const DocHead: string :=
    VersionMember + StatementOpen + ActionMember + EffectMember + PrincipalMember + ResourceKey

  /** The template from the closing quote of the Resource value on. */
  const DocTail: string := "\", " + SidMember

  // The serialised policy template, that is the JSON text
  // {"Version": "2012-10-17", "Statement": [{"Action": ["s3:GetObject"], "Effect": "Allow", "Principal": "*", "Resource": "arn:aws:s3:::!/*", "Sid": "Public"}]}
  const Template: string := DocHead + "arn:aws:s3:::!/*" + DocTail

  /** The Resource value around the bucket name. */
  const ArnPrefix: string := "arn:aws:s3:::"
  const ArnSuffix: string := "/*"

  /** The Resource value the document grants GetObject on. */
  function ResourceArn(bucket: string): string
  {
    ArnPrefix + bucket + ArnSuffix
  }

  /** Everything before the placeholder, and everything after it. */
  const Before: string := DocHead + ArnPrefix
  const After: string := ArnSuffix + DocTail

  /** Python's `str.replace` for a one-character pattern: one left-to-right
      pass that puts `rep` in place of every occurrence of `pat`; the text
      that `rep` brings in is not scanned again. */
  function ReplaceAll(s: string, pat: char, rep: string): string
    decreases |s|
  {
    if s == [] then []
    else (if s[0] == pat then rep else [s[0]]) + ReplaceAll(s[1..], pat, rep)
  }

  /** Replacing distributes over concatenation: the pass never looks across
      the join. */
  lemma {:induction false} ReplaceAllAppend(a: string, b: string, pat: char, rep: string)
    ensures ReplaceAll(a + b, pat, rep) == ReplaceAll(a, pat, rep) + ReplaceAll(b, pat, rep)
    decreases |a|
  {
    if a == [] {
      assert a + b == b;
    } else {
      assert (a + b)[0] == a[0];
      assert (a + b)[1..] == a[1..] + b;
      ReplaceAllAppend(a[1..], b, pat, rep);
    }
  }

  /** A text without the pattern comes back unchanged. */
  lemma {:induction false} ReplaceAllWithoutPattern(s: string, pat: char, rep: string)
    requires pat !in s
    ensures ReplaceAll(s, pat, rep) == s
    decreases |s|
  {
    if s != [] {
      assert pat !in s[1..];
      ReplaceAllWithoutPattern(s[1..], pat, rep);
    }
  }

  /** Each occurrence trades one character for `|rep|` characters. */
  lemma {:induction false} ReplaceAllLength(s: string, pat: char, rep: string)
    ensures |ReplaceAll(s, pat, rep)| == |s| + multiset(s)[pat] * (|rep| - 1)
    decreases |s|
  {
    if s != [] {
      ReplaceAllLength(s[1..], pat, rep);
      var n, m, k := |ReplaceAll(s[1..], pat, rep)|, multiset(s[1..])[pat], |rep| - 1;
      CountHead(s, pat);
      if s[0] == pat {
        assert |ReplaceAll(s, pat, rep)| == k + 1 + n;
        assert (m + 1) * k == m * k + k;
      } else {
        assert |ReplaceAll(s, pat, rep)| == 1 + n;
      }
    }
  }

  /** The occurrences of `c` in a non-empty text: its first character's and
      the rest's. */
  lemma CountHead(s: string, c: char)
    requires s != []
    ensures multiset(s)[c] == (if s[0] == c then 1 else 0) + multiset(s[1..])[c]
  {
    assert s == [s[0]] + s[1..];
  }

  /** When `rep` does not hold the pattern, no occurrence survives:
      every one is replaced. */
  lemma {:induction false} ReplaceAllRemovesPattern(s: string, pat: char, rep: string)
    requires pat !in rep
    ensures pat !in ReplaceAll(s, pat, rep)
    decreases |s|
  {
    if s != [] {
      ReplaceAllRemovesPattern(s[1..], pat, rep);
    }
  }

  /** Replacing the pattern by itself is the identity, so the pass is a
      faithful splice and drops nothing. */
  lemma {:induction false} ReplaceAllBySelf(s: string, pat: char)
    ensures ReplaceAll(s, pat, [pat]) == s
    decreases |s|
  {
    if s != [] {
      ReplaceAllBySelf(s[1..], pat);
      assert s == [s[0]] + s[1..];
    }
  }

  /** Regrouping a five-part concatenation around its middle character. */
  lemma Regroup(head: string, pre: string, c: char, post: string, tail: string)
    ensures head + (pre + [c] + post) + tail == (head + pre) + [c] + (post + tail)
  {
  }

  /** Splicing `rep` in for the one pattern character of a text that holds
      no other. */
  lemma ReplaceSingle(before: string, pat: char, after: string, rep: string)
    requires pat !in before && pat !in after
    ensures ReplaceAll(before + [pat] + after, pat, rep) == before + rep + after
  {
    assert ReplaceAll([pat], pat, rep) == rep by {
      assert [pat][1..] == [];
      assert rep + [] == rep;
    }
    calc {
      ReplaceAll(before + [pat] + after, pat, rep);
      { ReplaceAllAppend(before + [pat], after, pat, rep); }
      ReplaceAll(before + [pat], pat, rep) + ReplaceAll(after, pat, rep);
      { ReplaceAllAppend(before, [pat], pat, rep); }
      ReplaceAll(before, pat, rep) + rep + ReplaceAll(after, pat, rep);
      { ReplaceAllWithoutPattern(before, pat, rep);
        ReplaceAllWithoutPattern(after, pat, rep); }
      before + rep + after;
    }
  }

  lemma VersionMemberClean() ensures Placeholder !in VersionMember {}
  lemma StatementOpenClean() ensures Placeholder !in StatementOpen {}
  lemma ActionMemberClean() ensures Placeholder !in ActionMember {}
  lemma EffectMemberClean() ensures Placeholder !in EffectMember {}
  lemma PrincipalMemberClean() ensures Placeholder !in PrincipalMember {}
  lemma ResourceKeyClean() ensures Placeholder !in ResourceKey {}
  lemma SidMemberClean() ensures Placeholder !in SidMember {}

  /** No placeholder stands anywhere but in the Resource value. */
  lemma PlaceholderOnlyInResource()
    ensures Placeholder !in Before && Placeholder !in After
  {
    VersionMemberClean();
    StatementOpenClean();
    ActionMemberClean();
    EffectMemberClean();
    PrincipalMemberClean();
    ResourceKeyClean();
    SidMemberClean();
  }

  /** The template is the Resource ARN with the placeholder for the bucket,
      framed by the fixed JSON head and tail. */
  lemma TemplateSplit()
    ensures Template == DocHead + ResourceArn([Placeholder]) + DocTail
    ensures Template == Before + [Placeholder] + After
  {
    assert "arn:aws:s3:::!/*" == ArnPrefix + [Placeholder] + ArnSuffix;
    Regroup(DocHead, ArnPrefix, Placeholder, ArnSuffix, DocTail);
  }

  /** The template holds exactly one placeholder, in its Resource value. */
  lemma TemplateShape()
    ensures Template == Before + [Placeholder] + After
    ensures Placeholder !in Before && Placeholder !in After
    ensures multiset(Template)[Placeholder] == 1
  {
    TemplateSplit();
    PlaceholderOnlyInResource();
    CountInSplice(Before, [Placeholder], After, Placeholder);
  }

  /** Framing by texts free of `c` adds no occurrence of `c`. */
  lemma CountInSplice(before: string, mid: string, after: string, c: char)
    requires c !in before && c !in after
    ensures multiset(before + mid + after)[c] == multiset(mid)[c]
  {
    assert multiset(before + mid + after) == multiset(before) + multiset(mid) + multiset(after);
  }

  /** The document sent with the set-policy call: the template with its one
      placeholder replaced by the bucket name. A placeholder inside the
      bucket name is kept as it is. */
  function PolicyDocument(bucket: string): (doc: string)
    ensures doc == Before + bucket + After
    ensures doc == DocHead + ResourceArn(bucket) + DocTail
    ensures |doc| == |Template| - 1 + |bucket|
  {
    TemplateShape();
    ReplaceSingle(Before, Placeholder, After, bucket);
    Regroup2(DocHead, ArnPrefix, bucket, ArnSuffix, DocTail);
    ReplaceAll(Template, Placeholder, bucket)
  }

  /** The document's Resource value, read at its fixed offset right after
      the `"Resource": "` key, is the ARN for exactly the submitted bucket. */
  lemma PolicyDocumentResource(bucket: string)
    ensures PolicyDocument(bucket)[|DocHead|..|DocHead| + |ArnPrefix| + |bucket| + |ArnSuffix|] == ArnPrefix + bucket + ArnSuffix
  {
    MiddleSlice(DocHead, ArnPrefix, bucket, ArnSuffix, DocTail);
  }

  /** The middle part of a three-part text, read back by its offset. */
  lemma MiddleSlice(head: string, pre: string, mid: string, post: string, tail: string)
    ensures (head + (pre + mid + post) + tail)[|head|..|head| + |pre| + |mid| + |post|] == pre + mid + post
  {
  }

  /** Regrouping a five-part concatenation around its middle part. */
  lemma Regroup2(head: string, pre: string, mid: string, post: string, tail: string)
    ensures (head + pre) + mid + (post + tail) == head + (pre + mid + post) + tail
  {
  }

  /** The bucket's own placeholders are neither added to nor removed:
      the document holds exactly as many as the bucket name does. */
  lemma PolicyDocumentKeepsBucketPlaceholders(bucket: string)
    ensures multiset(PolicyDocument(bucket))[Placeholder] == multiset(bucket)[Placeholder]
  {
    PlaceholderOnlyInResource();
    CountInSplice(Before, bucket, After, Placeholder);
  }

  /** Each document is keyed to exactly one bucket: different names give
      different documents. */
  lemma PolicyDocumentInjective(b1: string, b2: string)
    requires PolicyDocument(b1) == PolicyDocument(b2)
    ensures b1 == b2
  {
    var d := PolicyDocument(b1);
    assert |b1| == |b2|;
    assert b1 == d[|Before|..|Before| + |b1|];
    assert b2 == d[|Before|..|Before| + |b2|];
  }
}
