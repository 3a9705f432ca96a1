/** `CScanResponseReader` itself. */
module ScanReader {
  import opened Bytes
  import opened SaneApi
  import opened Files
  import M = ReaderModel
  import S = ServerModel

  class CScanResponseReader {
    var currentFile: CFile
    var parameters: Option<Parameters>
    var hundredPercent: nat
    var totalBytes: nat
    var inProgress: bool
    var progress: seq<M.Progress>   // emissions of sig_progress
    var delivered: seq<CFile>       // files handed over by sig_done

    constructor (file: CFile)
      requires file.Valid()
      ensures Valid() && !inProgress && parameters == None && progress == [] && delivered == []
    {
      currentFile := file;
      parameters, hundredPercent, totalBytes, inProgress, progress, delivered := None, 0, 0, false, [], [];
    }

    ghost predicate Valid()
      reads this, currentFile
    {
      currentFile.Valid()
    }

    ghost function View(): M.Reader
      reads this, currentFile
    {
      M.Reader(currentFile.contents, parameters, hundredPercent, totalBytes, inProgress, progress)
    }

    /** A scan writes into a file of its own, so one that was handed over before is never touched again. */
    method Scan()
      requires Valid()
      modifies this
      ensures Valid() && View() == M.Scan(old(View()))
      ensures if old(inProgress) then currentFile == old(currentFile) && View() == old(View())
              else fresh(currentFile) && currentFile.contents == [] && inProgress
      ensures delivered == old(delivered)
    {
      if inProgress {
        return;
      }
      inProgress := true;
      Reset();
      currentFile := new CFile();
    }

    method Reset()
      modifies this`hundredPercent, this`totalBytes
      ensures hundredPercent == 0 && totalBytes == 0
    {
      totalBytes := 0;
      hundredPercent := 0;
    }

    method OnReadDone(ok: bool, response: S.Message)
      requires Valid()
      modifies this, currentFile
      ensures Valid() && currentFile == old(currentFile) && delivered == old(delivered)
      ensures View() == if ok then M.OnReadDone(old(View()), response) else old(View())
    {
      if ok {
        if response.parameters.Some? {
          parameters := response.parameters;
          hundredPercent := M.HundredPercent(response.parameters.value);
        }
        if response.data.Some? {
          currentFile.Write(response.data.value);
          totalBytes := totalBytes + |response.data.value|;
        }
        progress := progress + [M.ProgressOf(totalBytes, hundredPercent)];
      }
    }

    method OnDone()
      requires Valid()
      modifies this
      ensures Valid() && View() == M.OnDone(old(View()))
      ensures currentFile == old(currentFile) && delivered == old(delivered) + [currentFile]
    {
      inProgress := false;
      Reset();
      delivered := delivered + [currentFile];
    }
  }
}
