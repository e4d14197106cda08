/**
 How the two versions of the request processor relate: where they agree
 and the inputs on which their observable behaviour differs.
 */
module Versions {
  import opened Wrappers
  import opened JavaStrings
  import opened Platform
  import opened RequestLine
  import opened Exchange
  import Main = MainProcessor
  import Ths = ThsProcessor

  /** The contains-based and the indexOf-based destination checks accept the same paths. */
  lemma DestinationChecksAgree(p: string)
    ensures Main.ValidRequestDst(p) <==> Ths.ValidRequestDst(p)
  {
    ContainsIsIndexOf(p, "..");
    ContainsIsIndexOf(p, "/.ht");
  }

  /** Both versions admit the same requests to the filesystem. */
  lemma AdmittedAgree(line: string, env: Env)
    ensures Main.Admitted(line, env) <==> Ths.Admitted(line, env)
  {
    if ParseRequest(line, env.decode).Some? {
      DestinationChecksAgree(ParseRequest(line, env.decode).value.path);
    }
  }

  /** Both versions reject the same lines with 400 and with 403, and throw on the same unreadable lines. */
  lemma RejectionsAgree(line: string, env: Env, fs: FileSystem)
    ensures Main.Decide(line, env, fs) == BadRequest <==> Ths.Decide(line, env, fs) == BadRequest
    ensures Main.Decide(line, env, fs) == Forbidden <==> Ths.Decide(line, env, fs) == Forbidden
    ensures ParseRequest(line, env.decode).None? ==> Main.Decide(line, env, fs) == Crash == Ths.Decide(line, env, fs)
  {
    Main.BadRequestFirst(line, env, fs);
    Ths.BadRequestFirst(line, env, fs);
    Main.ForbiddenWhateverFs(line, env, fs);
    Ths.ForbiddenWhateverFs(line, env, fs);
    if ParseRequest(line, env.decode).Some? {
      DestinationChecksAgree(ParseRequest(line, env.decode).value.path);
    }
  }

  /** Both versions redirect exactly the same requests, to the same place. */
  lemma RedirectsAgree(line: string, env: Env, fs: FileSystem, q: string)
    ensures Main.Decide(line, env, fs) == Redirect(q) <==> Ths.Decide(line, env, fs) == Redirect(q)
  {
    AdmittedAgree(line, env);
    Main.AdmittedClassified(line, env, fs);
    Ths.AdmittedClassified(line, env, fs);
    if Main.Admitted(line, env) {
      var p := ParseRequest(line, env.decode).value.path;
      Main.RedirectIff(p, fs, q);
      Ths.RedirectIff(p, fs, q);
    }
  }

  /**
   A directory with a regular, readable index file: the src/main version
   writes nothing, the THS version sends the index file with 200.
   */
  lemma IndexFileDiffers(p: string, fs: FileSystem, env: Env)
    requires Stat(fs, "." + p).kind == Directory && EndsWith(p, "/")
    requires FindIndex(fs, p).Some? && Stat(fs, FindIndex(fs, p).value).readable
    ensures Main.Respond(Main.Classify(p, fs), env).None?
    ensures Ths.Respond(Ths.Classify(p, fs), env).Some?
    ensures Ths.Respond(Ths.Classify(p, fs), env).value.body == FileBytes(FindIndex(fs, p).value)
  {
    var ix := FindIndex(fs, p).value;
    Main.IndexFoundIff(p, fs, ix);
    Ths.SendFileIff(p, fs, ix, Stat(fs, ix));
    Ths.FileResponse(env, ix, Stat(fs, ix));
  }

  /** A special file (neither regular file nor directory): src/main sends it with 200, THS answers 404. */
  lemma SpecialFileDiffers(p: string, fs: FileSystem)
    requires Stat(fs, "." + p).kind == Special
    ensures Main.Classify(p, fs) == SendFile("." + p, Stat(fs, "." + p))
    ensures Ths.Classify(p, fs) == NotFound
  {
  }

  /** A directory whose listing is null: src/main throws before writing, THS sends an index with no rows. */
  lemma NullListingDiffers(p: string, fs: FileSystem)
    requires Stat(fs, "." + p).kind == Directory && EndsWith(p, "/")
             && FindIndex(fs, p).None? && Stat(fs, "." + p).listing.None?
    ensures Main.Classify(p, fs) == Crash
    ensures Ths.Classify(p, fs) == Listing("." + p, [])
  {
  }

  /**
   The row kinds differ only for entries that are neither regular files nor
   directories: src/main lists them as "[Dir]", THS as "[File]".
   */
  lemma RowKindsDiffer(e: Entry, formatSize: real -> string)
    ensures StartsWith(Main.Row(e, formatSize), "[Dir]\t") != StartsWith(Ths.Row(e, formatSize), "[Dir]\t")
            <==> e.kind in {Missing, Special}
  {
  }
}
