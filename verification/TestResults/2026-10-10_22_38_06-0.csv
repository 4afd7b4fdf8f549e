TestResult.DisplayName,TestResult.Outcome,TestResult.Duration,TestResult.ResourceCount,RandomSeed
ApiLivros.SavedBookFoundById (correctness),Passed,00:00:00.1853269,228470,2
ApiLivros.SavedBookFoundById (well-formedness),Passed,00:00:00.1636976,75809,2
