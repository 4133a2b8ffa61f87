/** The three files that the access point keeps in /tmp. */
module TmpFiles {

  datatype TmpFile = HostapdConf | DnsmasqConf | AddHosts

  class TmpDir {
    var files: map<TmpFile, string>

    constructor ()
      ensures files == map[]
    {
      files := map[];
    }

    /** fopen for writing, which may fail: an opened file starts empty. */
    method Open(f: TmpFile, opens: bool)
      modifies this
      ensures files == if opens then old(files)[f := ""] else old(files)
    {
      if opens {
        files := files[f := ""];
      }
    }

    method Write(f: TmpFile, text: string)
      requires f in files
      modifies this
      ensures files == old(files)[f := old(files)[f] + text]
    {
      files := files[f := files[f] + text];
    }

    method Remove(f: TmpFile)
      modifies this
      ensures files == old(files) - {f}
    {
      files := files - {f};
    }
  }
}
