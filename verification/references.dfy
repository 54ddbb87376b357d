/**
 * What `updateCodeReferences(oldPath, newPath)` does to the code files in
 * `.`: for each name in the listing with a code extension, it reads the
 * file, and if the content contains the old path (with backslashes turned
 * into slashes), it writes back the content with every occurrence replaced
 * by the new path, and records the update.  Read and write failures are
 * recorded per file; a listing failure is recorded once.
 */
module References {
  import opened Wrappers
  import opened Text
  import opened Files
  import opened Disk
  import opened Reporting
  import opened Sequences

  function UpdateError(item: String, message: String): String
  {
    "Error updating " + item + ": " + message
  }

  function ListingError(message: String): String
  {
    "Error scanning for code updates: " + message
  }

  /** The text files, the update records and the errors after some names of `.`. */
  datatype Rewriting = Rewriting(texts: map<String, String>, updates: seq<CodeUpdate>, errors: seq<String>)

  /** One iteration of the loop over the names of `.`, rewriting `from` into `to`. */
  function RewriteItem(st: Rewriting, unreadable: map<String, String>, unwritable: map<String, String>,
                       item: String, from: String, to: String): Rewriting
  {
    if !IsCodeName(item) then st
    else
      match ReadError(st.texts, unreadable, item)
      case Some(message) => st.(errors := st.errors + [UpdateError(item, message)])
      case None => RewriteContent(st, unwritable, item, st.texts[item], from, to)
  }

  /** The rest of the iteration, once the code file `item` has been read as `content`. */
  function RewriteContent(st: Rewriting, unwritable: map<String, String>,
                          item: String, content: String, from: String, to: String): Rewriting
  {
    if !Contains(content, from) then st
    else
      match WriteError(unwritable, item)
      case Some(message) => st.(errors := st.errors + [UpdateError(item, message)])
      case None =>
        Rewriting(st.texts[item := ReplaceAll(content, from, to)],
                  st.updates + [CodeUpdate(item, from, to)], st.errors)
  }

  /** The loop over `items`, starting from the text files `texts`. */
  function RewriteItems(items: seq<String>, texts: map<String, String>, unreadable: map<String, String>,
                        unwritable: map<String, String>, from: String, to: String): Rewriting
  {
    if items == [] then Rewriting(texts, [], [])
    else
      RewriteItem(RewriteItems(items[..|items| - 1], texts, unreadable, unwritable, from, to),
                  unreadable, unwritable, items[|items| - 1], from, to)
  }

  /** The whole call: list `.`, then rewrite with both paths normalised. */
  function CodeRewrite(tree: Listing, texts: map<String, String>, unreadable: map<String, String>,
                       unwritable: map<String, String>, oldPath: String, newPath: String): Rewriting
  {
    match tree
    case Unreadable(message) => Rewriting(texts, [], [ListingError(message)])
    case Entries(entries) =>
      RewriteItems(Names(entries), texts, unreadable, unwritable,
                   NormalizeSlashes(oldPath), NormalizeSlashes(newPath))
  }

  lemma RewriteItemsSnoc(items: seq<String>, i: nat, texts: map<String, String>, unreadable: map<String, String>,
                         unwritable: map<String, String>, from: String, to: String)
    requires i < |items|
    ensures RewriteItems(items[..i + 1], texts, unreadable, unwritable, from, to)
         == RewriteItem(RewriteItems(items[..i], texts, unreadable, unwritable, from, to),
                        unreadable, unwritable, items[i], from, to)
  {
    assert items[..i + 1][..i] == items[..i];
  }

  // ---------------------------------------------------------------------------
  // Which files are rewritten

  /** The code file `item` is rewritten: it can be read and written and it mentions `from`. */
  predicate Touched(item: String, texts: map<String, String>, unreadable: map<String, String>,
                    unwritable: map<String, String>, from: String)
  {
    IsCodeName(item) && item !in unreadable && item in texts && Contains(texts[item], from)
    && item !in unwritable
  }

  function UpdatedFiles(updates: seq<CodeUpdate>): (files: seq<String>)
    ensures |files| == |updates|
    ensures forall k :: 0 <= k < |updates| ==> files[k] == updates[k].file
  {
    seq(|updates|, k requires 0 <= k < |updates| => updates[k].file)
  }

  /** The text files after the rewrite of `items`: only the touched ones changed, by the replace-all. */
  ghost predicate TextsOutcome(items: seq<String>, texts: map<String, String>, unreadable: map<String, String>,
                               unwritable: map<String, String>, from: String, to: String, after: map<String, String>)
  {
    after.Keys == texts.Keys
    && forall x :: x in texts ==>
         after[x] == if x in items && Touched(x, texts, unreadable, unwritable, from)
                     then ReplaceAll(texts[x], from, to) else texts[x]
  }

  /** The records after the rewrite of `items`: one per touched file, each with both paths. */
  ghost predicate UpdatesOutcome(items: seq<String>, texts: map<String, String>, unreadable: map<String, String>,
                                 unwritable: map<String, String>, from: String, to: String, updates: seq<CodeUpdate>)
  {
    (forall x :: x in UpdatedFiles(updates) <==> x in items && Touched(x, texts, unreadable, unwritable, from))
    && Distinct(UpdatedFiles(updates))
    && (forall k :: 0 <= k < |updates| ==> updates[k].from == from && updates[k].to == to)
  }

  /**
   * Over a listing without repeated names, a code file is rewritten and
   * recorded exactly once if it can be read and written and its content
   * contains the old path, and is left alone otherwise; the rewrite is the
   * literal replace-all, and each record carries both paths.
   */
  lemma {:induction false} RewriteItemsOutcome(items: seq<String>, texts: map<String, String>,
                                               unreadable: map<String, String>, unwritable: map<String, String>,
                                               from: String, to: String)
    requires Distinct(items)
    ensures var r := RewriteItems(items, texts, unreadable, unwritable, from, to);
      TextsOutcome(items, texts, unreadable, unwritable, from, to, r.texts)
      && UpdatesOutcome(items, texts, unreadable, unwritable, from, to, r.updates)
  {
    if items != [] {
      var front, item := items[..|items| - 1], items[|items| - 1];
      assert Distinct(front);
      RewriteItemsOutcome(front, texts, unreadable, unwritable, from, to);
      assert item !in front;
      assert items == front + [item];
      var st := RewriteItems(front, texts, unreadable, unwritable, from, to);
      RewriteItemEffect(st, unreadable, unwritable, item, from, to);
      TextsStep(front, item, texts, unreadable, unwritable, from, to, st.texts,
                RewriteItem(st, unreadable, unwritable, item, from, to).texts);
      UpdatesStep(front, item, texts, unreadable, unwritable, from, to, st.updates,
                  RewriteItem(st, unreadable, unwritable, item, from, to).updates);
    }
  }

  /** One name either rewrites its file and adds a record, or changes neither. */
  lemma RewriteItemEffect(st: Rewriting, unreadable: map<String, String>, unwritable: map<String, String>,
                          item: String, from: String, to: String)
    ensures var next := RewriteItem(st, unreadable, unwritable, item, from, to);
      if Touched(item, st.texts, unreadable, unwritable, from) then
        next.texts == st.texts[item := ReplaceAll(st.texts[item], from, to)]
        && next.updates == st.updates + [CodeUpdate(item, from, to)]
      else
        next.texts == st.texts && next.updates == st.updates
  {
  }

  lemma TextsStep(front: seq<String>, item: String, texts: map<String, String>,
                  unreadable: map<String, String>, unwritable: map<String, String>,
                  from: String, to: String, before: map<String, String>, after: map<String, String>)
    requires item !in front
    requires TextsOutcome(front, texts, unreadable, unwritable, from, to, before)
    requires if Touched(item, before, unreadable, unwritable, from)
             then after == before[item := ReplaceAll(before[item], from, to)]
             else after == before
    ensures TextsOutcome(front + [item], texts, unreadable, unwritable, from, to, after)
  {
    assert item in texts ==> before[item] == texts[item];
    assert Touched(item, before, unreadable, unwritable, from) <==> Touched(item, texts, unreadable, unwritable, from);
    assert forall x :: x in front + [item] <==> x in front || x == item;
  }

  lemma UpdatesStep(front: seq<String>, item: String, texts: map<String, String>,
                    unreadable: map<String, String>, unwritable: map<String, String>,
                    from: String, to: String, before: seq<CodeUpdate>, after: seq<CodeUpdate>)
    requires item !in front
    requires UpdatesOutcome(front, texts, unreadable, unwritable, from, to, before)
    requires if Touched(item, texts, unreadable, unwritable, from)
             then after == before + [CodeUpdate(item, from, to)]
             else after == before
    ensures UpdatesOutcome(front + [item], texts, unreadable, unwritable, from, to, after)
  {
    assert forall x :: x in front + [item] <==> x in front || x == item;
    if Touched(item, texts, unreadable, unwritable, from) {
      assert UpdatedFiles(after) == UpdatedFiles(before) + [item];
    }
  }

  /** Content that does not mention the old path is never changed. */
  lemma UntouchedContentKept(items: seq<String>, texts: map<String, String>, unreadable: map<String, String>,
                             unwritable: map<String, String>, from: String, to: String, x: String)
    requires Distinct(items) && x in texts && !Contains(texts[x], from)
    ensures x in RewriteItems(items, texts, unreadable, unwritable, from, to).texts
    ensures RewriteItems(items, texts, unreadable, unwritable, from, to).texts[x] == texts[x]
    ensures x !in UpdatedFiles(RewriteItems(items, texts, unreadable, unwritable, from, to).updates)
  {
    RewriteItemsOutcome(items, texts, unreadable, unwritable, from, to);
  }
}
